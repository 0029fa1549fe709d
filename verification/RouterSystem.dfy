/** The app-server connection as a whole: the child process, the stdout reader thread, the
    router thread, the callers and the UI share bounded queues, a byte budget and drop counters
    (crates/codex-platform/src/app_server.rs, `route_app_server`, `routed_stdout_reader`;
    crates/codex-platform/src/byte_budget.rs).

    Queues are modelled as logs: `offered` holds every event the reader queued and `consumed`
    counts those the router took, so the queue itself is the part of the log past the count.
    Threads interleave one action at a time. */
module RouterSystem {

  import opened Numbers
  import opened Wrappers
  import opened Sequences
  import opened RouterCore
  import B = ByteBudget

  datatype Config = Config(
    incomingCapacity: nat, eventCapacity: nat, maxPending: nat, byteLimit: nat)

  /** One line of the process's output; None when it does not decode or is over the frame limit. */
  datatype Frame = Frame(bytes: nat, content: Option<Message>)

  /** A delivery carries the bytes its lease holds. */
  datatype ReaderEvent = Delivery(message: Message, bytes: nat) | ProtocolError | Overloaded | Eof

  datatype Reader = Reading | Holding(event: ReaderEvent) | Stopped

  /** The process output, the reader thread and its queue. `dropped` is the shared counter,
      `drops` the history of everything the reader counted. */
  datatype Link = Link(
    sent: seq<Frame>, read: nat, reader: Reader,
    offered: seq<ReaderEvent>, consumed: nat,
    dropped: nat, drops: nat)

  datatype Command = Request(id: nat, request: Pending) | SendFrame

  /** The callers: ids handed out, those not queued yet, and the command queue. */
  datatype Calls = Calls(nextId: nat, idle: set<nat>, issued: seq<Command>, taken: nat)

  /** The router thread and the message it is handling; `drops` is the history of
      notifications it counted as dropped. */
  datatype Routing = Routing(core: Core, hand: Option<ReaderEvent>, exited: bool, drops: nat)

  /** The UI: how many accepted events it took and the leases of the guards it holds. */
  datatype Ui = Ui(connected: bool, seen: nat, guards: seq<nat>)

  datatype System = System(
    link: Link, calls: Calls, routing: Routing, ui: Ui,
    // leases of replies not dropped by their caller yet, and the budget's counter
    replyLeases: seq<nat>, used: nat)

  function Initial(): System {
    System(
      Link([], 0, Reading, [], 0, 0, 0),
      Calls(0, {}, [], 0),
      Routing(Core(map[], map[], [], [], 0, true), None, false, 0),
      Ui(true, 0, []), [], 0)
  }

  datatype ReaderAction = Reads | GivesUp | Ends(event: ReaderEvent) | Offers | TimesOut

  datatype CallerAction = TakesId | Issues(command: Command)

  datatype RouterAction =
    | Expires(now: nat) | CollectsDrops | PublishesDrops
    | TakesCommand(written: bool) | TakesEvent | FindsReaderGone
    | Handles(written: bool) | ShutsDown | Exits

  datatype UiAction = TakesNext | ReleasesGuard(guard: nat) | Closes | DropsReply(lease: nat)

  datatype Action =
    | ServerSends(frame: Frame)
    | ReaderActs(reader: ReaderAction)
    | CallerActs(caller: CallerAction)
    | RouterActs(router: RouterAction)
    | UiActs(ui: UiAction)

  function EventBytes(e: Event): nat { if e.Received? then e.bytes else 0 }

  function DeliveryBytes(e: ReaderEvent): nat { if e.Delivery? then e.bytes else 0 }

  function SendAnswer(c: Config, s: System): SendOutcome {
    if !s.ui.connected then Closed
    else if |s.routing.core.accepted| - s.ui.seen >= c.eventCapacity then Full
    else Sent
  }

  predicate IncomingFull(c: Config, link: Link) {
    |link.offered| - link.consumed >= c.incomingCapacity
  }

  ghost predicate Shape(s: System) {
    && s.link.read <= |s.link.sent| && s.link.consumed <= |s.link.offered|
    && s.calls.taken <= |s.calls.issued| && s.ui.seen <= |s.routing.core.accepted|
    && (s.routing.hand.Some? ==> s.routing.hand.value.Delivery? && s.routing.core.running)
    && (s.routing.exited ==> !s.routing.core.running)
  }

  function Release(used: nat, bytes: nat): nat {
    SaturatingSub(used, bytes)
  }

  // ----- the reader thread -----

  predicate ReaderEnabled(c: Config, s: System, a: ReaderAction) {
    var link := s.link;
    match a
    case Reads => link.reader.Reading? && link.read < |link.sent| &&
      var frame := link.sent[link.read];
      frame.content.Some? && RequiresDelivery(frame.content.value) ==> B.Fits(c.byteLimit, s.used, frame.bytes)
    case GivesUp => link.reader.Reading? && link.read < |link.sent| &&
      var frame := link.sent[link.read];
      frame.content.Some? && RequiresDelivery(frame.content.value) && !B.Fits(c.byteLimit, s.used, frame.bytes)
    case Ends(event) => link.reader.Reading? && (event.ProtocolError? || (event.Eof? && link.read == |link.sent|))
    case Offers => link.reader.Holding? && !s.routing.exited && !IncomingFull(c, link)
    case TimesOut => link.reader.Holding? && (s.routing.exited || IncomingFull(c, link))
  }

  /** One frame is decoded; a notification that may be lost is dropped and counted when the
      budget has no room for it. */
  function AfterRead(c: Config, link: Link, used: nat): (Link, nat)
    requires link.read < |link.sent|
  {
    var frame := link.sent[link.read];
    var next := link.(read := link.read + 1);
    if frame.content.None? then
      (next.(reader := Holding(ProtocolError)), used)
    else if B.Fits(c.byteLimit, used, frame.bytes) then
      (next.(reader := Holding(Delivery(frame.content.value, frame.bytes))), used + frame.bytes)
    else
      (next.(dropped := SaturatingAdd(link.dropped, 1), drops := link.drops + 1), used)
  }

  function ReaderDoes(c: Config, s: System, a: ReaderAction): (next: System)
    requires ReaderEnabled(c, s, a)
    ensures next.calls == s.calls && next.routing == s.routing && next.ui == s.ui && next.replyLeases == s.replyLeases
  {
    var link := s.link;
    match a
    case Reads => var (link', used) := AfterRead(c, link, s.used); s.(link := link', used := used)
    case GivesUp => s.(link := link.(read := link.read + 1, reader := Holding(Overloaded)))
    case Ends(event) => s.(link := link.(reader := Holding(event)))
    case Offers =>
      s.(link := link.(offered := link.offered + [link.reader.event],
                       reader := if link.reader.event.Delivery? then Reading else Stopped))
    case TimesOut =>
      s.(link := link.(reader := Stopped), used := Release(s.used, DeliveryBytes(link.reader.event)))
  }

  // ----- the callers -----

  predicate CallerEnabled(s: System, a: CallerAction) {
    match a
    case TakesId => s.calls.nextId < COUNTER_MAX
    case Issues(command) => command.Request? ==> command.id in s.calls.idle
  }

  function CallerDoes(s: System, a: CallerAction): (next: System)
    requires CallerEnabled(s, a)
    ensures next == s.(calls := next.calls)
  {
    var calls := s.calls;
    match a
    case TakesId => s.(calls := calls.(nextId := calls.nextId + 1, idle := calls.idle + {calls.nextId}))
    case Issues(command) =>
      s.(calls := calls.(issued := calls.issued + [command],
                         idle := if command.Request? then calls.idle - {command.id} else calls.idle))
  }

  // ----- the router thread -----

  predicate RouterEnabled(c: Config, s: System, a: RouterAction) {
    var r := s.routing;
    match a
    case Exits => !r.core.running && r.hand.None? && !r.exited
    case PublishesDrops =>
      r.core.running && (r.hand.Some? ==> r.hand.value.Delivery? && r.hand.value.message.Notification?)
    case Handles(_) => r.core.running && r.hand.Some? && r.hand.value.Delivery?
    case TakesCommand(_) => r.core.running && r.hand.None? && s.calls.taken < |s.calls.issued|
    case TakesEvent => r.core.running && r.hand.None? && s.link.consumed < |s.link.offered|
    case FindsReaderGone =>
      r.core.running && r.hand.None? && s.link.consumed == |s.link.offered| && s.link.reader.Stopped?
    case _ => r.core.running && r.hand.None?
  }

  /** The lease of a handled message goes on to the reply or the queued event, or is dropped. */
  function AfterHandle(c: Config, s: System, written: bool): (next: System)
    requires s.routing.hand.Some? && s.routing.hand.value.Delivery?
    ensures next.link == s.link && next.calls == s.calls && next.ui == s.ui
  {
    var Delivery(m, bytes) := s.routing.hand.value;
    var core := s.routing.core;
    var verdict := Judge(core, m, SendAnswer(c, s), written);
    var routing := Routing(Carry(core, m, bytes, verdict), None, s.routing.exited,
                           s.routing.drops + if verdict.CountsDrop? then 1 else 0);
    match verdict
    case Answers(_, _) => s.(routing := routing, replyLeases := s.replyLeases + [bytes])
    case Queues => s.(routing := routing)
    case _ => s.(routing := routing, used := Release(s.used, bytes))
  }

  function AfterCommand(c: Config, core: Core, command: Command, written: bool): Core {
    match command
    case Request(id, request) => TakeRequest(core, id, request, c.maxPending, written)
    case SendFrame => TakeFrame(core, written)
  }

  /** The router thread ends: a last Disconnected event if there is room, and the receiver
      drops whatever the reader had queued. */
  function AfterExit(c: Config, s: System): (next: System)
    requires s.link.consumed <= |s.link.offered|
  {
    var core := s.routing.core;
    var last := if SendAnswer(c, s).Sent? then core.(accepted := core.accepted + [Disconnected]) else core;
    s.(routing := s.routing.(core := last, exited := true),
       used := Release(s.used, SumBy(DeliveryBytes, s.link.offered[s.link.consumed..])))
  }

  function RouterDoes(c: Config, s: System, a: RouterAction): (next: System)
    requires RouterEnabled(c, s, a) && s.link.consumed <= |s.link.offered|
    ensures next.ui == s.ui
    ensures next.link == s.link.(consumed := next.link.consumed, dropped := next.link.dropped)
    ensures next.calls == s.calls.(taken := next.calls.taken)
  {
    var r := s.routing;
    match a
    case Expires(now) => s.(routing := r.(core := Expire(r.core, now)))
    case CollectsDrops =>
      s.(routing := r.(core := CollectDrops(r.core, s.link.dropped)), link := s.link.(dropped := 0))
    case PublishesDrops => s.(routing := r.(core := PublishDrops(r.core, SendAnswer(c, s))))
    case TakesCommand(written) =>
      s.(routing := r.(core := AfterCommand(c, r.core, s.calls.issued[s.calls.taken], written)),
         calls := s.calls.(taken := s.calls.taken + 1))
    case TakesEvent =>
      var event := s.link.offered[s.link.consumed];
      s.(routing := if event.Delivery? then r.(hand := Some(event)) else r.(core := Stop(r.core)),
         link := s.link.(consumed := s.link.consumed + 1))
    case FindsReaderGone => s.(routing := r.(core := Stop(r.core)))
    case Handles(written) => AfterHandle(c, s, written)
    case ShutsDown => s.(routing := r.(core := Stop(r.core)))
    case Exits => AfterExit(c, s)
  }

  // ----- the UI and the callers' replies -----

  predicate UiEnabled(s: System, a: UiAction) {
    match a
    case TakesNext => s.ui.connected && s.ui.seen < |s.routing.core.accepted|
    case ReleasesGuard(guard) => guard < |s.ui.guards|
    case Closes => s.ui.connected && s.ui.seen <= |s.routing.core.accepted|
    case DropsReply(lease) => lease < |s.replyLeases|
  }

  function RemoveAt<T>(s: seq<T>, i: nat): seq<T>
    requires i < |s|
  {
    s[..i] + s[i + 1..]
  }

  function UiDoes(s: System, a: UiAction): (next: System)
    requires UiEnabled(s, a)
    ensures next.link == s.link && next.calls == s.calls && next.routing == s.routing
  {
    var accepted := s.routing.core.accepted;
    match a
    case TakesNext => s.(ui := s.ui.(seen := s.ui.seen + 1, guards := s.ui.guards + [EventBytes(accepted[s.ui.seen])]))
    case ReleasesGuard(guard) =>
      s.(ui := s.ui.(guards := RemoveAt(s.ui.guards, guard)), used := Release(s.used, s.ui.guards[guard]))
    case Closes =>
      s.(ui := s.ui.(connected := false), used := Release(s.used, SumBy(EventBytes, accepted[s.ui.seen..])))
    case DropsReply(lease) =>
      s.(replyLeases := RemoveAt(s.replyLeases, lease), used := Release(s.used, s.replyLeases[lease]))
  }

  // ----- one action of any thread -----

  predicate Enabled(c: Config, s: System, a: Action) {
    match a
    case ServerSends(_) => true
    case ReaderActs(reader) => ReaderEnabled(c, s, reader)
    case CallerActs(caller) => CallerEnabled(s, caller)
    case RouterActs(router) => RouterEnabled(c, s, router)
    case UiActs(ui) => UiEnabled(s, ui)
  }

  function Do(c: Config, s: System, a: Action): System
    requires Enabled(c, s, a) && s.link.consumed <= |s.link.offered|
  {
    match a
    case ServerSends(frame) => s.(link := s.link.(sent := s.link.sent + [frame]))
    case ReaderActs(reader) => ReaderDoes(c, s, reader)
    case CallerActs(caller) => CallerDoes(s, caller)
    case RouterActs(router) => RouterDoes(c, s, router)
    case UiActs(ui) => UiDoes(s, ui)
  }

  lemma RouterKeepsShape(c: Config, s: System, a: RouterAction)
    requires Shape(s) && RouterEnabled(c, s, a)
    ensures Shape(RouterDoes(c, s, a))
  {
    match a {
      case Handles(written) => HandlesKeepsShape(c, s, written);
      case TakesCommand(written) => TakesCommandKeepsShape(c, s, written);
      case _ =>
    }
  }

  lemma HandlesKeepsShape(c: Config, s: System, written: bool)
    requires Shape(s) && RouterEnabled(c, s, Handles(written))
    ensures Shape(AfterHandle(c, s, written))
  {
    match Judge(s.routing.core, s.routing.hand.value.message, SendAnswer(c, s), written) {
      case _ =>
    }
  }

  lemma TakesCommandKeepsShape(c: Config, s: System, written: bool)
    requires Shape(s) && RouterEnabled(c, s, TakesCommand(written))
    ensures Shape(RouterDoes(c, s, TakesCommand(written)))
  {
    match s.calls.issued[s.calls.taken] {
      case Request(_, _) =>
      case SendFrame =>
    }
  }

  lemma ReaderKeepsShape(c: Config, s: System, a: ReaderAction)
    requires Shape(s) && ReaderEnabled(c, s, a)
    ensures Shape(ReaderDoes(c, s, a))
  {
  }

  lemma UiKeepsShape(s: System, a: UiAction)
    requires Shape(s) && UiEnabled(s, a)
    ensures Shape(UiDoes(s, a))
  {
  }

  // ----- semantic notifications reach the UI as a prefix of what the server sent -----

  function SemanticMessage(m: Message): seq<Message> { if Semantic(m) then [m] else [] }

  function SemanticFrame(f: Frame): seq<Message> { if f.content.Some? then SemanticMessage(f.content.value) else [] }

  function SemanticDelivery(e: ReaderEvent): seq<Message> { if e.Delivery? then SemanticMessage(e.message) else [] }

  function SemanticEvent(e: Event): seq<Message> { if e.Received? then SemanticMessage(e.message) else [] }

  function InHand(hand: Option<ReaderEvent>): seq<Message> {
    if hand.Some? then SemanticDelivery(hand.value) else []
  }

  /** The reader has not stopped nor decided to: it reads, or holds a message to queue. */
  predicate Live(reader: Reader) {
    reader.Reading? || (reader.Holding? && reader.event.Delivery?)
  }

  function ReaderHand(reader: Reader): Option<ReaderEvent> {
    if reader.Holding? then Some(reader.event) else None
  }

  /** `passed` is what a stage handed on, in order, of everything it got, `got`; while the
      stage lives it holds the rest. */
  ghost predicate InOrder(got: seq<Message>, passed: seq<Message>, held: seq<Message>, live: bool) {
    && (live ==> got == passed + held)
    && passed <= got
  }

  lemma StageGets(got: seq<Message>, passed: seq<Message>, more: seq<Message>, live: bool)
    requires InOrder(got, passed, [], live)
    ensures InOrder(got + more, passed, more, live)
  {
    assert live ==> got == passed;
    assert (got + more)[..|passed|] == got[..|passed|];
  }

  lemma StagePasses(got: seq<Message>, passed: seq<Message>, held: seq<Message>)
    requires InOrder(got, passed, held, true)
    ensures InOrder(got, passed + held, [], true)
  {
    assert passed + held + [] == passed + held;
  }

  ghost predicate ReaderOrder(link: Link)
    requires link.read <= |link.sent|
  {
    InOrder(FlatMap(SemanticFrame, link.sent[..link.read]), FlatMap(SemanticDelivery, link.offered),
            InHand(ReaderHand(link.reader)), Live(link.reader))
  }

  ghost predicate RouterOrder(link: Link, r: Routing)
    requires link.consumed <= |link.offered|
  {
    InOrder(FlatMap(SemanticDelivery, link.offered[..link.consumed]), FlatMap(SemanticEvent, r.core.accepted),
            InHand(r.hand), r.core.running)
  }

  lemma ReadsKeepsOrder(c: Config, link: Link, used: nat)
    requires link.reader.Reading? && link.read < |link.sent| && ReaderOrder(link)
    requires var frame := link.sent[link.read];
             frame.content.Some? && RequiresDelivery(frame.content.value) ==> B.Fits(c.byteLimit, used, frame.bytes)
    ensures ReaderOrder(AfterRead(c, link, used).0)
  {
    var frame := link.sent[link.read];
    Advance(link.sent, link.read);
    FlatMapAppend(SemanticFrame, link.sent[..link.read], frame);
    StageGets(FlatMap(SemanticFrame, link.sent[..link.read]), FlatMap(SemanticDelivery, link.offered),
      SemanticFrame(frame), true);
  }

  lemma ReaderKeepsOrder(c: Config, s: System, a: ReaderAction)
    requires Shape(s) && ReaderEnabled(c, s, a) && ReaderOrder(s.link)
    ensures var next := ReaderDoes(c, s, a).link; next.read <= |next.sent| && ReaderOrder(next)
  {
    var link := s.link;
    match a {
      case Reads => ReadsKeepsOrder(c, link, s.used);
      case GivesUp =>
        Advance(link.sent, link.read);
        FlatMapAppend(SemanticFrame, link.sent[..link.read], link.sent[link.read]);
        StageGets(FlatMap(SemanticFrame, link.sent[..link.read]), FlatMap(SemanticDelivery, link.offered),
                  SemanticFrame(link.sent[link.read]), true);
      case Ends(_) =>
      case Offers =>
        FlatMapAppend(SemanticDelivery, link.offered, link.reader.event);
        if link.reader.event.Delivery? {
          StagePasses(FlatMap(SemanticFrame, link.sent[..link.read]), FlatMap(SemanticDelivery, link.offered),
                      InHand(ReaderHand(link.reader)));
        }
      case TimesOut =>
    }
  }

  lemma HandlesKeepsOrder(c: Config, s: System, written: bool)
    requires Shape(s) && RouterEnabled(c, s, Handles(written)) && RouterOrder(s.link, s.routing)
    ensures RouterOrder(s.link, AfterHandle(c, s, written).routing)
  {
    var Delivery(m, bytes) := s.routing.hand.value;
    match Judge(s.routing.core, m, SendAnswer(c, s), written) {
      case Queues =>
        FlatMapAppend(SemanticEvent, s.routing.core.accepted, Received(m, bytes));
        StagePasses(FlatMap(SemanticDelivery, s.link.offered[..s.link.consumed]),
                    FlatMap(SemanticEvent, s.routing.core.accepted), SemanticMessage(m));
      case _ =>
    }
  }

  lemma TakesEventKeepsOrder(c: Config, s: System)
    requires Shape(s) && RouterEnabled(c, s, TakesEvent) && RouterOrder(s.link, s.routing)
    ensures var next := RouterDoes(c, s, TakesEvent);
            next.link.consumed <= |next.link.offered| && RouterOrder(next.link, next.routing)
  {
    var link := s.link;
    Advance(link.offered, link.consumed);
    FlatMapAppend(SemanticDelivery, link.offered[..link.consumed], link.offered[link.consumed]);
    StageGets(FlatMap(SemanticDelivery, link.offered[..link.consumed]), FlatMap(SemanticEvent, s.routing.core.accepted),
              SemanticDelivery(link.offered[link.consumed]), true);
  }

  lemma RouterKeepsOrder(c: Config, s: System, a: RouterAction)
    requires Shape(s) && RouterEnabled(c, s, a) && RouterOrder(s.link, s.routing)
    ensures var next := RouterDoes(c, s, a);
            next.link.consumed <= |next.link.offered| && RouterOrder(next.link, next.routing)
  {
    match a {
      case Handles(written) => HandlesKeepsOrder(c, s, written);
      case TakesEvent => TakesEventKeepsOrder(c, s);
      case PublishesDrops =>
        FlatMapNothing(SemanticEvent, s.routing.core.accepted, NotificationsDropped(s.routing.core.dropped));
      case Exits => FlatMapNothing(SemanticEvent, s.routing.core.accepted, Disconnected);
      case TakesCommand(written) =>
        match s.calls.issued[s.calls.taken] {
          case Request(_, _) =>
          case SendFrame =>
        }
      case Expires(_) =>
      case CollectsDrops =>
      case FindsReaderGone =>
      case ShutsDown =>
    }
  }

  // ----- requests: ids are used once, and every request taken is answered once -----

  function RequestId(command: Command): seq<nat> { if command.Request? then [command.id] else [] }

  function RequestIds(commands: seq<Command>): seq<nat> { FlatMap(RequestId, commands) }

  ghost function Took(calls: Calls): set<nat>
    requires calls.taken <= |calls.issued|
  {
    set id | id in RequestIds(calls.issued[..calls.taken])
  }

  ghost predicate Distinct(ids: seq<nat>) {
    forall i, j :: 0 <= i < j < |ids| ==> ids[i] != ids[j]
  }

  ghost predicate IdsUsedOnce(calls: Calls) {
    && Distinct(RequestIds(calls.issued))
    && (forall id :: id in RequestIds(calls.issued) ==> id < calls.nextId && id !in calls.idle)
    && (forall id :: id in calls.idle ==> id < calls.nextId)
  }

  ghost predicate Answering(c: Config, calls: Calls, core: Core)
    requires calls.taken <= |calls.issued|
  {
    && Accounted(core, Took(calls))
    && |core.pending| <= c.maxPending
    && (!core.running ==> core.pending == map[])
  }

  lemma CallerKeepsIds(s: System, a: CallerAction)
    requires IdsUsedOnce(s.calls) && CallerEnabled(s, a)
    ensures IdsUsedOnce(CallerDoes(s, a).calls)
  {
    match a {
      case Issues(command) => FlatMapAppend(RequestId, s.calls.issued, command);
      case TakesId =>
    }
  }

  lemma CallerKeepsTook(s: System, a: CallerAction)
    requires Shape(s) && CallerEnabled(s, a)
    ensures Shape(CallerDoes(s, a)) && Took(CallerDoes(s, a).calls) == Took(s.calls)
  {
    if a.Issues? {
      assert (s.calls.issued + [a.command])[..s.calls.taken] == s.calls.issued[..s.calls.taken];
    }
  }

  lemma TakeOneMore(calls: Calls)
    requires calls.taken < |calls.issued| && IdsUsedOnce(calls)
    ensures var command := calls.issued[calls.taken];
            command.Request? ==>
              Took(calls.(taken := calls.taken + 1)) == Took(calls) + {command.id} && command.id !in Took(calls)
    ensures calls.issued[calls.taken].SendFrame? ==> Took(calls.(taken := calls.taken + 1)) == Took(calls)
  {
    var command := calls.issued[calls.taken];
    var before := RequestIds(calls.issued[..calls.taken]);
    Advance(calls.issued, calls.taken);
    FlatMapAppend(RequestId, calls.issued[..calls.taken], command);
    if command.Request? {
      assert calls.issued == calls.issued[..calls.taken + 1] + calls.issued[calls.taken + 1..];
      FlatMapConcat(RequestId, calls.issued[..calls.taken + 1], calls.issued[calls.taken + 1..]);
      assert RequestIds(calls.issued)[|before|] == command.id;
      assert forall i :: 0 <= i < |before| ==> RequestIds(calls.issued)[i] == before[i];
    }
  }

  lemma FewerPending(fewer: map<nat, Pending>, more: map<nat, Pending>)
    requires fewer.Keys <= more.Keys
    ensures |fewer| <= |more|
  {
    assert more.Keys == fewer.Keys + (more.Keys - fewer.Keys);
  }

  lemma TakesCommandKeepsAnswering(c: Config, s: System, written: bool)
    requires Shape(s) && RouterEnabled(c, s, TakesCommand(written))
    requires IdsUsedOnce(s.calls) && Answering(c, s.calls, s.routing.core)
    ensures Answering(c, s.calls.(taken := s.calls.taken + 1),
                      AfterCommand(c, s.routing.core, s.calls.issued[s.calls.taken], written))
  {
    var core := s.routing.core;
    TakeOneMore(s.calls);
    match s.calls.issued[s.calls.taken] {
      case Request(id, request) =>
        TakeRequestAccounts(core, id, request, c.maxPending, written, Took(s.calls));
        if |core.pending| < c.maxPending && written {
          assert core.pending[id := request].Keys == core.pending.Keys + {id};
        }
      case SendFrame =>
        StopAccounts(core, Took(s.calls));
    }
  }

  lemma RouterKeepsAnswering(c: Config, s: System, a: RouterAction)
    requires Shape(s) && RouterEnabled(c, s, a)
    requires IdsUsedOnce(s.calls) && Answering(c, s.calls, s.routing.core)
    ensures var next := RouterDoes(c, s, a);
            next.calls.taken <= |next.calls.issued| && Answering(c, next.calls, next.routing.core)
  {
    var core, took := s.routing.core, Took(s.calls);
    match a {
      case Expires(now) =>
        ExpireAccounts(core, now, took);
        FewerPending(Expire(core, now).pending, core.pending);
      case TakesCommand(written) => TakesCommandKeepsAnswering(c, s, written);
      case TakesEvent => StopAccounts(core, took);
      case FindsReaderGone => StopAccounts(core, took);
      case Handles(written) => HandlesKeepsAnswering(c, s, written);
      case ShutsDown => StopAccounts(core, took);
      case CollectsDrops =>
      case PublishesDrops =>
      case Exits =>
    }
  }

  lemma HandlesKeepsAnswering(c: Config, s: System, written: bool)
    requires Shape(s) && RouterEnabled(c, s, Handles(written)) && Answering(c, s.calls, s.routing.core)
    ensures Answering(c, s.calls, AfterHandle(c, s, written).routing.core)
  {
    var Delivery(m, bytes) := s.routing.hand.value;
    HandleAccounts(s.routing.core, m, bytes, SendAnswer(c, s), written, Took(s.calls));
    FewerPending(AfterHandle(c, s, written).routing.core.pending, s.routing.core.pending);
  }

  // ----- the byte budget -----

  function HeldBy(hand: Option<ReaderEvent>): nat { if hand.Some? then DeliveryBytes(hand.value) else 0 }

  function QueuedBytes(link: Link): nat
    requires link.consumed <= |link.offered|
  {
    SumBy(DeliveryBytes, link.offered[link.consumed..])
  }

  function UndeliveredBytes(ui: Ui, accepted: seq<Event>): nat
    requires ui.seen <= |accepted|
  {
    SumBy(EventBytes, accepted[ui.seen..])
  }

  /** The bytes of every lease that is alive, wherever it is. */
  function LeasedBytes(s: System): nat
    requires s.link.consumed <= |s.link.offered| && s.ui.seen <= |s.routing.core.accepted|
  {
    HeldBy(ReaderHand(s.link.reader))
    + (if s.routing.exited then 0 else QueuedBytes(s.link))
    + HeldBy(s.routing.hand)
    + (if s.ui.connected then UndeliveredBytes(s.ui, s.routing.core.accepted) else 0)
    + B.Held(s.ui.guards) + B.Held(s.replyLeases)
  }

  ghost predicate BudgetExact(c: Config, s: System)
    requires s.link.consumed <= |s.link.offered| && s.ui.seen <= |s.routing.core.accepted|
  {
    s.used == LeasedBytes(s) <= c.byteLimit
  }

  // An event offered to the queue takes its lease along.
  lemma OfferedBytes(link: Link, event: ReaderEvent)
    requires link.consumed <= |link.offered|
    ensures QueuedBytes(link.(offered := link.offered + [event])) == QueuedBytes(link) + DeliveryBytes(event)
  {
    assert (link.offered + [event])[link.consumed..] == link.offered[link.consumed..] + [event];
    SumByAppend(DeliveryBytes, link.offered[link.consumed..], event);
  }

  lemma OffersKeepsBudget(c: Config, s: System)
    requires Shape(s) && ReaderEnabled(c, s, Offers) && BudgetExact(c, s)
    ensures BudgetExact(c, ReaderDoes(c, s, Offers))
  {
    OfferedBytes(s.link, s.link.reader.event);
  }

  lemma ReadsKeepsBudget(c: Config, s: System)
    requires Shape(s) && ReaderEnabled(c, s, Reads) && BudgetExact(c, s)
    ensures BudgetExact(c, ReaderDoes(c, s, Reads))
  {
  }

  lemma ReaderKeepsBudget(c: Config, s: System, a: ReaderAction)
    requires Shape(s) && ReaderEnabled(c, s, a) && BudgetExact(c, s)
    ensures var next := ReaderDoes(c, s, a); Shape(next) && BudgetExact(c, next)
  {
    ReaderKeepsShape(c, s, a);
    match a {
      case Reads => ReadsKeepsBudget(c, s);
      case Offers => OffersKeepsBudget(c, s);
      case _ =>
    }
  }

  lemma EventAccepted(accepted: seq<Event>, seen: nat, e: Event)
    requires seen <= |accepted|
    ensures SumBy(EventBytes, (accepted + [e])[seen..]) == SumBy(EventBytes, accepted[seen..]) + EventBytes(e)
  {
    assert (accepted + [e])[seen..] == accepted[seen..] + [e];
    SumByAppend(EventBytes, accepted[seen..], e);
  }

  lemma HandlesKeepsBudget(c: Config, s: System, written: bool)
    requires Shape(s) && RouterEnabled(c, s, Handles(written)) && BudgetExact(c, s)
    ensures var next := AfterHandle(c, s, written); Shape(next) && BudgetExact(c, next)
  {
    HandlesKeepsShape(c, s, written);
    var Delivery(m, bytes) := s.routing.hand.value;
    match Judge(s.routing.core, m, SendAnswer(c, s), written) {
      case Answers(_, _) => SumByAppend(B.Identity, s.replyLeases, bytes);
      case Queues => EventAccepted(s.routing.core.accepted, s.ui.seen, Received(m, bytes));
      case _ =>
    }
  }

  lemma RouterKeepsBudget(c: Config, s: System, a: RouterAction)
    requires Shape(s) && RouterEnabled(c, s, a) && BudgetExact(c, s)
    ensures var next := RouterDoes(c, s, a); Shape(next) && BudgetExact(c, next)
  {
    RouterKeepsShape(c, s, a);
    match a {
      case Handles(written) => HandlesKeepsBudget(c, s, written);
      case TakesEvent => Advance(s.link.offered, s.link.consumed);
      case PublishesDrops =>
        EventAccepted(s.routing.core.accepted, s.ui.seen, NotificationsDropped(s.routing.core.dropped));
      case Exits => EventAccepted(s.routing.core.accepted, s.ui.seen, Disconnected);
      case TakesCommand(written) =>
        match s.calls.issued[s.calls.taken] {
          case Request(_, _) =>
          case SendFrame =>
        }
      case Expires(_) =>
      case CollectsDrops =>
      case FindsReaderGone =>
      case ShutsDown =>
    }
  }

  lemma UiKeepsBudget(c: Config, s: System, a: UiAction)
    requires Shape(s) && UiEnabled(s, a) && BudgetExact(c, s)
    ensures var next := UiDoes(s, a); Shape(next) && BudgetExact(c, next)
  {
    UiKeepsShape(s, a);
    match a {
      case TakesNext =>
        Advance(s.routing.core.accepted, s.ui.seen);
        SumByAppend(B.Identity, s.ui.guards, EventBytes(s.routing.core.accepted[s.ui.seen]));
      case ReleasesGuard(guard) => SumByRemove(B.Identity, s.ui.guards, guard);
      case Closes =>
      case DropsReply(lease) => SumByRemove(B.Identity, s.replyLeases, lease);
    }
  }

  // ----- loss accounting -----

  function Noise(m: Message): nat { if m.Notification? && !m.requiresResync then 1 else 0 }

  function NoiseInFrame(f: Frame): nat { if f.content.Some? then Noise(f.content.value) else 0 }

  function NoiseInDelivery(e: ReaderEvent): nat { if e.Delivery? then Noise(e.message) else 0 }

  function NoiseInEvent(e: Event): nat { if e.Received? then Noise(e.message) else 0 }

  function NoiseInHand(hand: Option<ReaderEvent>): nat { if hand.Some? then NoiseInDelivery(hand.value) else 0 }

  function PublishedCount(e: Event): nat { if e.NotificationsDropped? then e.count else 0 }

  /** Of the losable notifications a stage got, each was passed on, is held, or was counted as
      dropped; a stage that stopped may have lost one more. */
  ghost predicate Conserved(got: nat, accounted: nat, live: bool) {
    accounted <= got <= accounted + (if live then 0 else 1)
  }

  ghost predicate ReaderConserves(link: Link)
    requires link.read <= |link.sent|
  {
    Conserved(SumBy(NoiseInFrame, link.sent[..link.read]),
              SumBy(NoiseInDelivery, link.offered) + NoiseInHand(ReaderHand(link.reader)) + link.drops,
              Live(link.reader))
  }

  ghost predicate RouterConserves(link: Link, r: Routing)
    requires link.consumed <= |link.offered|
  {
    Conserved(SumBy(NoiseInDelivery, link.offered[..link.consumed]),
              SumBy(NoiseInEvent, r.core.accepted) + NoiseInHand(r.hand) + r.drops,
              r.core.running)
  }

  /** Every counted drop was published or sits in one of the two counters, unless a counter
      saturated. */
  ghost predicate CountersExact(link: Link, r: Routing) {
    var known := SumBy(PublishedCount, r.core.accepted) + r.core.dropped + link.dropped;
    && known <= link.drops + r.drops
    && (link.drops + r.drops <= COUNTER_MAX ==> known == link.drops + r.drops)
  }

  lemma ReaderKeepsConservation(c: Config, s: System, a: ReaderAction)
    requires Shape(s) && ReaderEnabled(c, s, a) && ReaderConserves(s.link) && CountersExact(s.link, s.routing)
    ensures var next := ReaderDoes(c, s, a);
            next.link.read <= |next.link.sent| && ReaderConserves(next.link) && CountersExact(next.link, next.routing)
  {
    var link := s.link;
    if a.Reads? || a.GivesUp? {
      Advance(link.sent, link.read);
      SumByAppend(NoiseInFrame, link.sent[..link.read], link.sent[link.read]);
    } else if a.Offers? {
      SumByAppend(NoiseInDelivery, link.offered, link.reader.event);
    }
  }

  lemma QueuesConserves(accepted: seq<Event>, m: Message, bytes: nat)
    ensures SumBy(NoiseInEvent, accepted + [Received(m, bytes)]) == SumBy(NoiseInEvent, accepted) + Noise(m)
    ensures SumBy(PublishedCount, accepted + [Received(m, bytes)]) == SumBy(PublishedCount, accepted)
  {
    SumByAppend(NoiseInEvent, accepted, Received(m, bytes));
    SumByAppend(PublishedCount, accepted, Received(m, bytes));
  }

  lemma HandlesConserves(c: Config, s: System, written: bool)
    requires Shape(s) && RouterEnabled(c, s, Handles(written)) && RouterConserves(s.link, s.routing)
    ensures RouterConserves(s.link, AfterHandle(c, s, written).routing)
  {
    var Delivery(m, bytes) := s.routing.hand.value;
    QueuesConserves(s.routing.core.accepted, m, bytes);
    match Judge(s.routing.core, m, SendAnswer(c, s), written) {
      case _ =>
    }
  }

  lemma HandlesKeepsCounters(c: Config, s: System, written: bool)
    requires Shape(s) && RouterEnabled(c, s, Handles(written)) && CountersExact(s.link, s.routing)
    ensures CountersExact(s.link, AfterHandle(c, s, written).routing)
  {
    var Delivery(m, bytes) := s.routing.hand.value;
    QueuesConserves(s.routing.core.accepted, m, bytes);
    match Judge(s.routing.core, m, SendAnswer(c, s), written) {
      case _ =>
    }
  }

  lemma RouterKeepsConserving(c: Config, s: System, a: RouterAction)
    requires Shape(s) && RouterEnabled(c, s, a) && RouterConserves(s.link, s.routing)
    ensures var next := RouterDoes(c, s, a);
            next.link.consumed <= |next.link.offered| && RouterConserves(next.link, next.routing)
  {
    var core := s.routing.core;
    match a {
      case Handles(written) => HandlesConserves(c, s, written);
      case TakesEvent =>
        Advance(s.link.offered, s.link.consumed);
        SumByAppend(NoiseInDelivery, s.link.offered[..s.link.consumed], s.link.offered[s.link.consumed]);
      case PublishesDrops => SumByAppend(NoiseInEvent, core.accepted, NotificationsDropped(core.dropped));
      case Exits => SumByAppend(NoiseInEvent, core.accepted, Disconnected);
      case TakesCommand(written) =>
        match s.calls.issued[s.calls.taken] {
          case Request(_, _) =>
          case SendFrame =>
        }
      case Expires(_) =>
      case CollectsDrops =>
      case FindsReaderGone =>
      case ShutsDown =>
    }
  }

  lemma RouterKeepsCounters(c: Config, s: System, a: RouterAction)
    requires Shape(s) && RouterEnabled(c, s, a) && CountersExact(s.link, s.routing)
    ensures var next := RouterDoes(c, s, a); CountersExact(next.link, next.routing)
  {
    var core := s.routing.core;
    match a {
      case Handles(written) => HandlesKeepsCounters(c, s, written);
      case PublishesDrops => SumByAppend(PublishedCount, core.accepted, NotificationsDropped(core.dropped));
      case Exits => SumByAppend(PublishedCount, core.accepted, Disconnected);
      case TakesCommand(written) =>
        match s.calls.issued[s.calls.taken] {
          case Request(_, _) =>
          case SendFrame =>
        }
      case TakesEvent =>
      case Expires(_) =>
      case CollectsDrops =>
      case FindsReaderGone =>
      case ShutsDown =>
    }
  }

  // ----- server requests: queued for the UI or refused with one error -----

  function AskedIn(m: Message): seq<Json> { if m.ServerRequest? then [m.requestId] else [] }

  function AskedInDelivery(e: ReaderEvent): seq<Json> { if e.Delivery? then AskedIn(e.message) else [] }

  function AskedInEvent(e: Event): seq<Json> { if e.Received? then AskedIn(e.message) else [] }

  function RefusedIn(w: Written): seq<Json> { if w.OverloadError? then [w.requestId] else [] }

  function AskedInHand(hand: Option<ReaderEvent>): seq<Json> { if hand.Some? then AskedInDelivery(hand.value) else [] }

  function Times(x: Json, s: seq<Json>): nat {
    if s == [] then 0 else (if s[0] == x then 1 else 0) + Times(x, s[1..])
  }

  lemma {:induction false} TimesConcat(x: Json, s: seq<Json>, t: seq<Json>)
    ensures Times(x, s + t) == Times(x, s) + Times(x, t)
  {
    if s == [] {
      assert s + t == t;
    } else {
      assert (s + t)[1..] == s[1..] + t;
      TimesConcat(x, s[1..], t);
    }
  }

  /** The router took request `x` as often as it queued it for the UI, refused it with an
      overload error, or holds it; over all requests, stopping can leave one unanswered. */
  ghost predicate Settled(x: Json, took: seq<Json>, queued: seq<Json>, refused: seq<Json>, held: seq<Json>,
                          live: bool) {
    && Conserved(Times(x, took), Times(x, queued) + Times(x, refused) + Times(x, held), live)
    && Conserved(|took|, |queued| + |refused| + |held|, live)
  }

  lemma RequestTaken(x: Json, took: seq<Json>, queued: seq<Json>, refused: seq<Json>, more: seq<Json>)
    requires Settled(x, took, queued, refused, [], true)
    ensures Settled(x, took + more, queued, refused, more, true)
  {
    TimesConcat(x, took, more);
  }

  lemma RequestSettled(x: Json, took: seq<Json>, queued: seq<Json>, refused: seq<Json>, held: seq<Json>)
    requires Settled(x, took, queued, refused, held, true)
    ensures Settled(x, took, queued + held, refused, [], true)
    ensures Settled(x, took, queued, refused + held, [], true)
    ensures |held| <= 1 ==> Settled(x, took, queued, refused, [], false)
  {
    TimesConcat(x, queued, held);
    TimesConcat(x, refused, held);
  }

  ghost predicate RequestsSettled(x: Json, link: Link, r: Routing)
    requires link.consumed <= |link.offered|
  {
    Settled(x, FlatMap(AskedInDelivery, link.offered[..link.consumed]), FlatMap(AskedInEvent, r.core.accepted),
            FlatMap(RefusedIn, r.core.stdin), AskedInHand(r.hand), r.core.running)
  }

  lemma WritesNoRefusal(stdin: seq<Written>, w: Written)
    requires !w.OverloadError?
    ensures FlatMap(RefusedIn, stdin + [w]) == FlatMap(RefusedIn, stdin)
  {
    FlatMapNothing(RefusedIn, stdin, w);
  }

  lemma CarrySettlesRequest(x: Json, took: seq<Json>, core: Core, m: Message, bytes: nat, verdict: Verdict)
    requires Settled(x, took, FlatMap(AskedInEvent, core.accepted), FlatMap(RefusedIn, core.stdin), AskedIn(m), true)
    requires verdict.RefusesRequest? ==> AskedIn(m) == [verdict.requestId]
    requires verdict.Answers? || verdict.Discards? || verdict.CountsDrop? ==> AskedIn(m) == []
    ensures var next := Carry(core, m, bytes, verdict);
            Settled(x, took, FlatMap(AskedInEvent, next.accepted), FlatMap(RefusedIn, next.stdin), [], !verdict.Stops?)
  {
    RequestSettled(x, took, FlatMap(AskedInEvent, core.accepted), FlatMap(RefusedIn, core.stdin), AskedIn(m));
    if verdict.Queues? {
      FlatMapAppend(AskedInEvent, core.accepted, Received(m, bytes));
    } else if verdict.RefusesRequest? {
      FlatMapAppend(RefusedIn, core.stdin, OverloadError(verdict.requestId));
    }
  }

  lemma HandlesSettlesRequest(x: Json, c: Config, s: System, written: bool)
    requires Shape(s) && RouterEnabled(c, s, Handles(written)) && RequestsSettled(x, s.link, s.routing)
    ensures RequestsSettled(x, s.link, AfterHandle(c, s, written).routing)
  {
    var Delivery(m, bytes) := s.routing.hand.value;
    CarrySettlesRequest(x, FlatMap(AskedInDelivery, s.link.offered[..s.link.consumed]), s.routing.core, m, bytes,
                        Judge(s.routing.core, m, SendAnswer(c, s), written));
  }

  lemma TakesEventKeepsSettled(x: Json, c: Config, s: System)
    requires Shape(s) && RouterEnabled(c, s, TakesEvent) && RequestsSettled(x, s.link, s.routing)
    ensures var next := RouterDoes(c, s, TakesEvent);
            next.link.consumed <= |next.link.offered| && RequestsSettled(x, next.link, next.routing)
  {
    var core, event := s.routing.core, s.link.offered[s.link.consumed];
    var took := FlatMap(AskedInDelivery, s.link.offered[..s.link.consumed]);
    Advance(s.link.offered, s.link.consumed);
    FlatMapAppend(AskedInDelivery, s.link.offered[..s.link.consumed], event);
    RequestTaken(x, took, FlatMap(AskedInEvent, core.accepted), FlatMap(RefusedIn, core.stdin), AskedInDelivery(event));
  }

  lemma RouterKeepsSettled(x: Json, c: Config, s: System, a: RouterAction)
    requires Shape(s) && RouterEnabled(c, s, a) && RequestsSettled(x, s.link, s.routing)
    ensures var next := RouterDoes(c, s, a);
            next.link.consumed <= |next.link.offered| && RequestsSettled(x, next.link, next.routing)
  {
    var core := s.routing.core;
    match a {
      case Handles(written) => HandlesSettlesRequest(x, c, s, written);
      case TakesEvent => TakesEventKeepsSettled(x, c, s);
      case PublishesDrops => FlatMapNothing(AskedInEvent, core.accepted, NotificationsDropped(core.dropped));
      case Exits => FlatMapNothing(AskedInEvent, core.accepted, Disconnected);
      case TakesCommand(written) =>
        match s.calls.issued[s.calls.taken] {
          case Request(id, _) => WritesNoRefusal(core.stdin, RequestFrame(id));
          case SendFrame => WritesNoRefusal(core.stdin, ClientFrame);
        }
      case Expires(_) =>
      case CollectsDrops =>
      case FindsReaderGone =>
      case ShutsDown =>
    }
  }

  // ----- replies are the server's answers, and they are final -----

  /** Each answer is the content of a response with that very id that the router took. */
  ghost predicate AnswersAuthentic(link: Link, r: Routing)
    requires link.consumed <= |link.offered|
  {
    && (r.hand.Some? ==> r.hand.value in link.offered[..link.consumed])
    && forall id, i :: 0 <= i < |RepliesTo(r.core.replies, id)| ==>
         Authentic(link.offered[..link.consumed], id, RepliesTo(r.core.replies, id)[i])
  }

  ghost predicate Authentic(took: seq<ReaderEvent>, id: nat, reply: Outcome) {
    match reply
    case Answered(result) => exists bytes :: Delivery(Success(Some(id), result), bytes) in took
    case RequestFailed(code) => exists bytes :: Delivery(Failure(Some(id), code), bytes) in took
    case _ => true
  }

  /** A step adds at most one reply per request, and only an authentic one. */
  ghost predicate Grows(before: Core, after: Core, took: seq<ReaderEvent>, id: nat) {
    var b, a := RepliesTo(before.replies, id), RepliesTo(after.replies, id);
    a == b || (|a| == |b| + 1 && a[..|b|] == b && Authentic(took, id, a[|b|]))
  }

  ghost predicate RepliesGrow(before: Core, after: Core, took: seq<ReaderEvent>) {
    forall id :: Grows(before, after, took, id)
  }

  lemma StopGrows(core: Core, took: seq<ReaderEvent>)
    ensures RepliesGrow(core, Stop(core), took)
  {
    forall id ensures Grows(core, Stop(core), took, id) {
      RepliesAdded(core.replies, map x | x in core.pending :: TransportClosed, id);
    }
  }

  lemma ExpireGrows(core: Core, now: nat, took: seq<ReaderEvent>)
    ensures RepliesGrow(core, Expire(core, now), took)
  {
    forall id ensures Grows(core, Expire(core, now), took, id) {
      RepliesAdded(core.replies, Expired(core.pending, now), id);
    }
  }

  lemma FailedWriteGrows(core: Core, id: nat, took: seq<ReaderEvent>)
    ensures var answered := core.(pending := core.pending - {id}, replies := AddReply(core.replies, id, WriteFailed));
            RepliesGrow(core, Stop(answered), took)
  {
    var failed := core.(pending := core.pending - {id}, replies := AddReply(core.replies, id, WriteFailed));
    forall x ensures Grows(core, Stop(failed), took, x) {
      RepliesAdded(failed.replies, map y | y in failed.pending :: TransportClosed, x);
    }
  }

  lemma TakeRequestGrows(core: Core, id: nat, request: Pending, maxPending: nat, written: bool, took: seq<ReaderEvent>)
    ensures RepliesGrow(core, TakeRequest(core, id, request, maxPending, written), took)
  {
    if |core.pending| < maxPending && !written {
      FailedWriteGrows(core, id, took);
    } else {
      forall x ensures Grows(core, TakeRequest(core, id, request, maxPending, written), took, x) {
      }
    }
  }

  lemma TakesCommandGrows(c: Config, core: Core, command: Command, written: bool, took: seq<ReaderEvent>)
    ensures RepliesGrow(core, AfterCommand(c, core, command, written), took)
  {
    match command {
      case Request(id, request) => TakeRequestGrows(core, id, request, c.maxPending, written, took);
      case SendFrame =>
        if !written {
          StopGrows(core, took);
        }
    }
  }

  lemma HandlesGrows(c: Config, s: System, written: bool)
    requires Shape(s) && RouterEnabled(c, s, Handles(written)) && AnswersAuthentic(s.link, s.routing)
    ensures RepliesGrow(s.routing.core, AfterHandle(c, s, written).routing.core, s.link.offered[..s.link.consumed])
  {
    var m := s.routing.hand.value.message;
    match Judge(s.routing.core, m, SendAnswer(c, s), written) {
      case Answers(id, answer) =>
        assert Authentic(s.link.offered[..s.link.consumed], id, answer) by {
          assert s.routing.hand.value == Delivery(m, s.routing.hand.value.bytes);
        }
      case Stops => StopGrows(s.routing.core, s.link.offered[..s.link.consumed]);
      case _ =>
    }
  }

  lemma RouterGrows(c: Config, s: System, a: RouterAction)
    requires Shape(s) && RouterEnabled(c, s, a) && AnswersAuthentic(s.link, s.routing)
    ensures var next := RouterDoes(c, s, a);
            next.link.consumed <= |next.link.offered|
            && RepliesGrow(s.routing.core, next.routing.core, next.link.offered[..next.link.consumed])
  {
    var core, took := s.routing.core, s.link.offered[..s.link.consumed];
    match a {
      case Expires(now) => ExpireGrows(core, now, took);
      case TakesCommand(written) => TakesCommandGrows(c, core, s.calls.issued[s.calls.taken], written, took);
      case TakesEvent => StopGrows(core, s.link.offered[..s.link.consumed + 1]);
      case FindsReaderGone => StopGrows(core, took);
      case Handles(written) => HandlesGrows(c, s, written);
      case ShutsDown => StopGrows(core, took);
      case CollectsDrops =>
      case PublishesDrops =>
      case Exits =>
    }
  }

  lemma GrowthKeepsAuthentic(before: Core, after: Core, took: seq<ReaderEvent>, took': seq<ReaderEvent>, id: nat,
                             i: nat)
    requires Grows(before, after, took', id) && i < |RepliesTo(after.replies, id)|
    requires forall j :: 0 <= j < |RepliesTo(before.replies, id)| ==>
             Authentic(took, id, RepliesTo(before.replies, id)[j])
    requires forall e :: e in took ==> e in took'
    ensures Authentic(took', id, RepliesTo(after.replies, id)[i])
  {
    var b, a := RepliesTo(before.replies, id), RepliesTo(after.replies, id);
    if i < |b| {
      assert a[..|b|] == b && a[i] == b[i];
      assert Authentic(took, id, b[i]);
    }
  }

  lemma RouterKeepsAuthentic(c: Config, s: System, a: RouterAction)
    requires Shape(s) && RouterEnabled(c, s, a) && AnswersAuthentic(s.link, s.routing)
    ensures var next := RouterDoes(c, s, a);
            next.link.consumed <= |next.link.offered| && AnswersAuthentic(next.link, next.routing)
  {
    RouterGrows(c, s, a);
    var next := RouterDoes(c, s, a);
    var took, took' := s.link.offered[..s.link.consumed], next.link.offered[..next.link.consumed];
    assert forall e :: e in took ==> e in took';
    forall id, i: nat | i < |RepliesTo(next.routing.core.replies, id)|
      ensures Authentic(took', id, RepliesTo(next.routing.core.replies, id)[i])
    {
      GrowthKeepsAuthentic(s.routing.core, next.routing.core, took, took', id, i);
    }
  }
}
