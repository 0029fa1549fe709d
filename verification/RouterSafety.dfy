/** What holds in every run of the app-server connection, whatever the interleaving, the queue
    capacities, the timeouts and the server's output. */
module RouterSafety {

  import opened Wrappers
  import opened Sequences
  import opened RouterCore
  import opened RouterSystem
  import B = ByteBudget

  ghost predicate Inv(c: Config, s: System) {
    && Shape(s)
    && ReaderOrder(s.link) && RouterOrder(s.link, s.routing)
    && IdsUsedOnce(s.calls) && Answering(c, s.calls, s.routing.core)
    && BudgetExact(c, s)
    && ReaderConserves(s.link) && RouterConserves(s.link, s.routing) && CountersExact(s.link, s.routing)
    && (forall x :: RequestsSettled(x, s.link, s.routing))
    && AnswersAuthentic(s.link, s.routing)
  }

  lemma InitiallyHolds(c: Config)
    ensures Inv(c, Initial())
  {
  }

  lemma ServerKeeps(c: Config, s: System, frame: Frame)
    requires Inv(c, s)
    ensures Inv(c, Do(c, s, ServerSends(frame)))
  {
    assert (s.link.sent + [frame])[..s.link.read] == s.link.sent[..s.link.read];
    var next := Do(c, s, ServerSends(frame));
    assert next.link.offered[..next.link.consumed] == s.link.offered[..s.link.consumed];
    assert forall x :: RequestsSettled(x, s.link, s.routing) ==> RequestsSettled(x, next.link, next.routing);
  }

  // What the router consumed so far does not change while the reader works.
  lemma ReaderKeepsConsumed(c: Config, s: System, a: ReaderAction)
    requires Shape(s) && ReaderEnabled(c, s, a)
    ensures var next := ReaderDoes(c, s, a);
            && next.link.consumed == s.link.consumed <= |next.link.offered|
            && next.link.offered[..next.link.consumed] == s.link.offered[..s.link.consumed]
  {
  }

  lemma ReaderKeepsRouter(c: Config, s: System, a: ReaderAction)
    requires Shape(s) && ReaderEnabled(c, s, a)
    requires AnswersAuthentic(s.link, s.routing) && RouterOrder(s.link, s.routing) && RouterConserves(s.link, s.routing)
    ensures var next := ReaderDoes(c, s, a);
            AnswersAuthentic(next.link, next.routing) && RouterOrder(next.link, next.routing)
              && RouterConserves(next.link, next.routing)
  {
    ReaderKeepsConsumed(c, s, a);
  }

  lemma ReaderKeepsSettled(c: Config, s: System, a: ReaderAction)
    requires Shape(s) && ReaderEnabled(c, s, a) && forall x :: RequestsSettled(x, s.link, s.routing)
    ensures var next := ReaderDoes(c, s, a); forall x :: RequestsSettled(x, next.link, next.routing)
  {
    ReaderKeepsConsumed(c, s, a);
    var next := ReaderDoes(c, s, a);
    forall x ensures RequestsSettled(x, next.link, next.routing) {
      assert RequestsSettled(x, s.link, s.routing);
    }
  }

  lemma ReaderKeeps(c: Config, s: System, a: ReaderAction)
    requires Inv(c, s) && ReaderEnabled(c, s, a)
    ensures Inv(c, ReaderDoes(c, s, a))
  {
    ReaderKeepsShape(c, s, a);
    ReaderKeepsOrder(c, s, a);
    ReaderKeepsBudget(c, s, a);
    ReaderKeepsConservation(c, s, a);
    ReaderKeepsRouter(c, s, a);
    ReaderKeepsSettled(c, s, a);
  }

  lemma CallerKeeps(c: Config, s: System, a: CallerAction)
    requires Inv(c, s) && CallerEnabled(s, a)
    ensures Inv(c, CallerDoes(s, a))
  {
    CallerKeepsIds(s, a);
    CallerKeepsTook(s, a);
  }

  lemma RouterKeepsAllSettled(c: Config, s: System, a: RouterAction)
    requires Shape(s) && RouterEnabled(c, s, a) && forall x :: RequestsSettled(x, s.link, s.routing)
    ensures var next := RouterDoes(c, s, a);
            next.link.consumed <= |next.link.offered| && forall x :: RequestsSettled(x, next.link, next.routing)
  {
    var next := RouterDoes(c, s, a);
    forall x ensures RequestsSettled(x, next.link, next.routing) {
      RouterKeepsSettled(x, c, s, a);
    }
  }

  lemma RouterKeeps(c: Config, s: System, a: RouterAction)
    requires Inv(c, s) && RouterEnabled(c, s, a)
    ensures Inv(c, RouterDoes(c, s, a))
  {
    RouterKeepsShape(c, s, a);
    RouterKeepsOrder(c, s, a);
    RouterKeepsAnswering(c, s, a);
    RouterKeepsBudget(c, s, a);
    RouterKeepsConserving(c, s, a);
    RouterKeepsCounters(c, s, a);
    RouterKeepsAuthentic(c, s, a);
    RouterKeepsAllSettled(c, s, a);
  }

  lemma UiKeeps(c: Config, s: System, a: UiAction)
    requires Inv(c, s) && UiEnabled(s, a)
    ensures Inv(c, UiDoes(s, a))
  {
    UiKeepsBudget(c, s, a);
  }

  lemma InvKept(c: Config, s: System, a: Action)
    requires Inv(c, s) && Enabled(c, s, a)
    ensures Inv(c, Do(c, s, a))
  {
    match a {
      case ServerSends(frame) => ServerKeeps(c, s, frame);
      case ReaderActs(reader) => ReaderKeeps(c, s, reader);
      case CallerActs(caller) => CallerKeeps(c, s, caller);
      case RouterActs(router) => RouterKeeps(c, s, router);
      case UiActs(ui) => UiKeeps(c, s, ui);
    }
  }

  ghost predicate Follows(c: Config, s: System, next: System) {
    exists a :: Shape(s) && Enabled(c, s, a) && next == Do(c, s, a)
  }

  ghost predicate StepAt(c: Config, trace: seq<System>, i: nat)
    requires i + 1 < |trace|
  {
    Follows(c, trace[i], trace[i + 1])
  }

  /** `trace` is a run: each state follows from the one before by some thread's action. */
  ghost predicate IsRun(c: Config, trace: seq<System>) {
    trace != [] && forall i: nat :: i + 1 < |trace| ==> StepAt(c, trace, i)
  }

  lemma {:induction false} RunKeepsInv(c: Config, trace: seq<System>, i: nat)
    requires IsRun(c, trace) && Inv(c, trace[0]) && i < |trace|
    ensures Inv(c, trace[i])
  {
    if i > 0 {
      RunKeepsInv(c, trace, i - 1);
      assert StepAt(c, trace, i - 1);
      var a :| Enabled(c, trace[i - 1], a) && trace[i] == Do(c, trace[i - 1], a);
      InvKept(c, trace[i - 1], a);
    }
  }

  ghost predicate StartsAfresh(c: Config, trace: seq<System>) {
    IsRun(c, trace) && trace[0] == Initial()
  }

  // ----- requests -----

  /** A request the router took is pending without a reply or was answered exactly once; no
      more than the cap are pending, and none once the router has stopped. */
  lemma EveryRequestAnsweredOnce(c: Config, trace: seq<System>, i: nat, id: nat)
    requires StartsAfresh(c, trace) && i < |trace|
    ensures var s := trace[i];
            && s.calls.taken <= |s.calls.issued|
            && |s.routing.core.pending| <= c.maxPending
            && (id in Took(s.calls) ==>
                  (id in s.routing.core.pending && s.routing.core.running
                    && RepliesTo(s.routing.core.replies, id) == [])
                  || (id !in s.routing.core.pending && |RepliesTo(s.routing.core.replies, id)| == 1))
            && (id !in Took(s.calls) ==> id !in s.routing.core.pending && RepliesTo(s.routing.core.replies, id) == [])
  {
    InitiallyHolds(c);
    RunKeepsInv(c, trace, i);
  }

  lemma RouterExtendsReplies(c: Config, s: System, a: RouterAction, id: nat)
    requires Inv(c, s) && RouterEnabled(c, s, a)
    ensures RepliesTo(s.routing.core.replies, id) <= RepliesTo(RouterDoes(c, s, a).routing.core.replies, id)
  {
    RouterGrows(c, s, a);
    var next := RouterDoes(c, s, a);
    assert Grows(s.routing.core, next.routing.core, next.link.offered[..next.link.consumed], id);
  }

  lemma StepExtendsReplies(c: Config, s: System, next: System, id: nat)
    requires Inv(c, s) && Follows(c, s, next)
    ensures RepliesTo(s.routing.core.replies, id) <= RepliesTo(next.routing.core.replies, id)
  {
    var a :| Shape(s) && Enabled(c, s, a) && next == Do(c, s, a);
    if a.RouterActs? {
      RouterExtendsReplies(c, s, a.router, id);
    } else {
      assert next.routing.core.replies == s.routing.core.replies;
    }
  }

  lemma StepKeepsReply(c: Config, trace: seq<System>, i: nat, id: nat)
    requires StartsAfresh(c, trace) && i + 1 < |trace|
    requires RepliesTo(trace[i].routing.core.replies, id) != []
    ensures RepliesTo(trace[i + 1].routing.core.replies, id) == RepliesTo(trace[i].routing.core.replies, id)
  {
    EveryRequestAnsweredOnce(c, trace, i, id);
    EveryRequestAnsweredOnce(c, trace, i + 1, id);
    InitiallyHolds(c);
    RunKeepsInv(c, trace, i);
    assert StepAt(c, trace, i);
    StepExtendsReplies(c, trace[i], trace[i + 1], id);
  }

  /** The reply to a request never changes afterwards: a response that arrives after its
      request timed out answers nothing, since no later request has that id. */
  lemma {:induction false} ReplyIsFinal(c: Config, trace: seq<System>, i: nat, j: nat, id: nat)
    requires StartsAfresh(c, trace) && i <= j < |trace|
    requires RepliesTo(trace[i].routing.core.replies, id) != []
    ensures RepliesTo(trace[j].routing.core.replies, id) == RepliesTo(trace[i].routing.core.replies, id)
    decreases j - i
  {
    if i < j {
      ReplyIsFinal(c, trace, i, j - 1, id);
      StepKeepsReply(c, trace, j - 1, id);
    }
  }

  /** A successful or failed reply is the content of a response that carried that very id. */
  lemma RepliesAreTheServers(c: Config, trace: seq<System>, i: nat, id: nat)
    requires StartsAfresh(c, trace) && i < |trace|
    ensures var s := trace[i];
            s.link.consumed <= |s.link.offered| &&
            forall reply :: reply in RepliesTo(s.routing.core.replies, id) ==>
              Authentic(s.link.offered[..s.link.consumed], id, reply)
  {
    InitiallyHolds(c);
    RunKeepsInv(c, trace, i);
  }

  // ----- semantic notifications -----

  lemma PrefixOfFlatMap<A, T>(f: A -> seq<T>, s: seq<A>, i: nat)
    requires i <= |s|
    ensures FlatMap(f, s[..i]) <= FlatMap(f, s)
  {
    assert s == s[..i] + s[i..];
    FlatMapConcat(f, s[..i], s[i..]);
  }

  /** The semantic notifications the UI took are a prefix of those the server sent. */
  lemma UiSeesSemanticPrefix(c: Config, trace: seq<System>, i: nat)
    requires StartsAfresh(c, trace) && i < |trace|
    ensures var s := trace[i];
            s.ui.seen <= |s.routing.core.accepted| &&
            FlatMap(SemanticEvent, s.routing.core.accepted[..s.ui.seen]) <= FlatMap(SemanticFrame, s.link.sent)
  {
    InitiallyHolds(c);
    RunKeepsInv(c, trace, i);
    var s := trace[i];
    PrefixOfFlatMap(SemanticEvent, s.routing.core.accepted, s.ui.seen);
    PrefixOfFlatMap(SemanticDelivery, s.link.offered, s.link.consumed);
    PrefixOfFlatMap(SemanticFrame, s.link.sent, s.link.read);
  }

  /** While the reader and the router live no semantic notification is lost: what was accepted
      for the UI and what is still on its way is all the server sent, in order. So a loss
      means that one of them has stopped. */
  lemma NothingSemanticLostWhileLive(c: Config, trace: seq<System>, i: nat)
    requires StartsAfresh(c, trace) && i < |trace|
    requires Live(trace[i].link.reader) && trace[i].routing.core.running
    ensures var s := trace[i];
            s.link.consumed <= |s.link.offered| && s.link.read <= |s.link.sent| &&
            FlatMap(SemanticEvent, s.routing.core.accepted) + InHand(s.routing.hand)
            + FlatMap(SemanticDelivery, s.link.offered[s.link.consumed..]) + InHand(ReaderHand(s.link.reader))
            + FlatMap(SemanticFrame, s.link.sent[s.link.read..])
            == FlatMap(SemanticFrame, s.link.sent)
  {
    InitiallyHolds(c);
    RunKeepsInv(c, trace, i);
    PipelineIsWhole(trace[i]);
  }

  lemma PipelineIsWhole(s: System)
    requires Shape(s) && ReaderOrder(s.link) && RouterOrder(s.link, s.routing)
    requires Live(s.link.reader) && s.routing.core.running
    ensures FlatMap(SemanticEvent, s.routing.core.accepted) + InHand(s.routing.hand)
            + FlatMap(SemanticDelivery, s.link.offered[s.link.consumed..]) + InHand(ReaderHand(s.link.reader))
            + FlatMap(SemanticFrame, s.link.sent[s.link.read..])
            == FlatMap(SemanticFrame, s.link.sent)
  {
    assert s.link.sent == s.link.sent[..s.link.read] + s.link.sent[s.link.read..];
    FlatMapConcat(SemanticFrame, s.link.sent[..s.link.read], s.link.sent[s.link.read..]);
    assert s.link.offered == s.link.offered[..s.link.consumed] + s.link.offered[s.link.consumed..];
    FlatMapConcat(SemanticDelivery, s.link.offered[..s.link.consumed], s.link.offered[s.link.consumed..]);
  }

  /** Between two states nothing semantic is queued by a reader that has stopped, nor accepted
      for the UI by a router that has stopped, and neither comes back to life. */
  ghost predicate StoppedStaysStopped(before: System, after: System) {
    && (!Live(before.link.reader) ==>
          && !Live(after.link.reader)
          && FlatMap(SemanticDelivery, after.link.offered) == FlatMap(SemanticDelivery, before.link.offered))
    && (!before.routing.core.running ==>
          && !after.routing.core.running
          && FlatMap(SemanticEvent, after.routing.core.accepted) ==
             FlatMap(SemanticEvent, before.routing.core.accepted))
  }

  lemma StepStaysStopped(c: Config, trace: seq<System>, i: nat)
    requires StartsAfresh(c, trace) && i + 1 < |trace|
    ensures StoppedStaysStopped(trace[i], trace[i + 1])
  {
    InitiallyHolds(c);
    RunKeepsInv(c, trace, i);
    assert StepAt(c, trace, i);
    ActionStaysStopped(c, trace[i], trace[i + 1]);
  }

  lemma ReaderStaysStopped(c: Config, s: System, a: ReaderAction)
    requires Shape(s) && ReaderEnabled(c, s, a)
    ensures StoppedStaysStopped(s, ReaderDoes(c, s, a))
  {
    if a.Offers? && !Live(s.link.reader) {
      FlatMapNothing(SemanticDelivery, s.link.offered, s.link.reader.event);
    }
  }

  lemma RouterStaysStopped(c: Config, s: System, a: RouterAction)
    requires Shape(s) && RouterEnabled(c, s, a)
    ensures StoppedStaysStopped(s, RouterDoes(c, s, a))
  {
    if a.Exits? {
      FlatMapNothing(SemanticEvent, s.routing.core.accepted, Disconnected);
    }
  }

  lemma ActionStaysStopped(c: Config, s: System, next: System)
    requires Inv(c, s) && Follows(c, s, next)
    ensures StoppedStaysStopped(s, next)
  {
    var a :| Shape(s) && Enabled(c, s, a) && next == Do(c, s, a);
    match a {
      case ReaderActs(reader) => ReaderStaysStopped(c, s, reader);
      case RouterActs(router) => RouterStaysStopped(c, s, router);
      case _ =>
    }
  }

  lemma {:induction false} NothingSemanticAfterStop(c: Config, trace: seq<System>, i: nat, j: nat)
    requires StartsAfresh(c, trace) && i <= j < |trace|
    ensures StoppedStaysStopped(trace[i], trace[j])
    decreases j - i
  {
    if i < j {
      NothingSemanticAfterStop(c, trace, i, j - 1);
      StepStaysStopped(c, trace, j - 1);
    }
  }

  // ----- bytes, drops and server requests -----

  /** The budget counts exactly the live leases, so the bytes of all frames held between the
      reader and the UI stay within the limit; with every lease released any frame within the
      limit is admitted. */
  lemma HeldBytesAreBounded(c: Config, trace: seq<System>, i: nat, frame: nat)
    requires StartsAfresh(c, trace) && i < |trace|
    ensures var s := trace[i];
            && s.link.consumed <= |s.link.offered| && s.ui.seen <= |s.routing.core.accepted|
            && s.used == LeasedBytes(s) <= c.byteLimit
            && (B.Fits(c.byteLimit, s.used, frame) <==> LeasedBytes(s) + frame <= c.byteLimit)
  {
    InitiallyHolds(c);
    RunKeepsInv(c, trace, i);
  }

  /** Below counter saturation the losable notifications read so far are those accepted for
      the UI, those in flight, those announced as dropped and those in the two counters; a
      stopped reader and a stopped router may each have lost one more. */
  lemma LossIsAnnounced(c: Config, trace: seq<System>, i: nat)
    requires StartsAfresh(c, trace) && i < |trace|
    requires trace[i].link.drops + trace[i].routing.drops <= COUNTER_MAX
    ensures var s := trace[i];
            && s.link.read <= |s.link.sent| && s.link.consumed <= |s.link.offered|
            && var known := SumBy(NoiseInEvent, s.routing.core.accepted) + NoiseInHand(s.routing.hand)
                            + SumBy(NoiseInDelivery, s.link.offered[s.link.consumed..])
                            + NoiseInHand(ReaderHand(s.link.reader))
                            + SumBy(PublishedCount, s.routing.core.accepted) + s.routing.core.dropped + s.link.dropped;
               known <= SumBy(NoiseInFrame, s.link.sent[..s.link.read])
                     <= known + (if Live(s.link.reader) then 0 else 1) + (if s.routing.core.running then 0 else 1)
  {
    InitiallyHolds(c);
    RunKeepsInv(c, trace, i);
    var s := trace[i];
    assert s.link.offered == s.link.offered[..s.link.consumed] + s.link.offered[s.link.consumed..];
    SumByConcat(NoiseInDelivery, s.link.offered[..s.link.consumed], s.link.offered[s.link.consumed..]);
  }

  /** Each server request the router took is queued for the UI, or refused by one overload
      error with its id, or in hand; at most one is left over, and then the router stopped. */
  lemma ServerRequestsSettled(c: Config, trace: seq<System>, i: nat, x: Json)
    requires StartsAfresh(c, trace) && i < |trace|
    ensures var s := trace[i];
            s.link.consumed <= |s.link.offered| &&
            Settled(x, FlatMap(AskedInDelivery, s.link.offered[..s.link.consumed]),
                    FlatMap(AskedInEvent, s.routing.core.accepted), FlatMap(RefusedIn, s.routing.core.stdin),
                    AskedInHand(s.routing.hand), s.routing.core.running)
  {
    InitiallyHolds(c);
    RunKeepsInv(c, trace, i);
    assert RequestsSettled(x, trace[i].link, trace[i].routing);
  }
}
