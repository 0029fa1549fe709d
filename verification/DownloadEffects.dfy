/** What each operation on downloads does, told from the state before it
    (crates/codex-platform/src/browser.rs, the download methods of `BrowserRuntime`). */
module DownloadEffects {

  import opened Downloads
  import opened DownloadRuns
  import opened Wrappers

  /** Nothing but the approval and the permission that hangs on it has changed. */
  predicate OnlyApproval(s: State, t: State) {
    t.downloads == s.downloads && t.reserved == s.reserved && t.log == s.log
  }

  /** The approval that is still good at the time `now`. */
  function Unexpired(grant: Option<Grant>, now: nat): Option<Grant> {
    match grant case None => None case Some(g) => if now < g.expiresAt then grant else None
  }

  /** An approval goes when its time has come, and not before. */
  lemma ExpiryIsExact(s: State, now: nat)
    ensures Expire(s, now).grant == Unexpired(s.grant, now) && OnlyApproval(s, Expire(s, now))
  {
  }

  /** Closing a tab takes the approval its agent was given there, and no other. */
  lemma RevocationIsExact(s: State, tab: nat)
    ensures var t := RevokeForTab(s, tab);
            && OnlyApproval(s, t)
            && (t.grant.None? <==> s.grant.None? || (s.grant.value.source.Agent? && s.grant.value.source.tab == tab))
            && (t.grant.Some? ==> t.grant == s.grant)
  {
  }

  /** While an approval is good the agent gets no other, and the same one again; otherwise it gets
      one for ten seconds, its tab's frames and that URL. */
  lemma AgentApprovalIsExact(
    s: State, context: string, tab: nat, url: string, frames: set<string>, directory: Path, now: nat)
    ensures var outcome := AllowAgent(s, context, Agent(tab, url), frames, directory, now);
            var t := outcome.state;
            match Unexpired(s.grant, now)
            case Some(g) =>
              && t == s
              && (outcome.error.None? <==> g.context == context && g.source == Agent(tab, url))
              && (outcome.error.Some? ==> outcome.error.value == StillPending)
            case None =>
              if frames == {} then outcome.error == Some(NoFrame) && t.grant == None && OnlyApproval(s, t)
              else
                && outcome.error.None? && t.allows
                && t.grant == Some(Grant(context, directory, now + 10_000, frames, Agent(tab, url)))
                && t.log == s.log + [Granted(context, directory, Agent(tab, url))]
                && t.downloads == s.downloads && t.reserved == s.reserved
  {
    ExpiryIsExact(s, now);
  }

  /** The user's own approval in a context lasts ten seconds from the last time it was asked for;
      another one is left alone. */
  lemma UserApprovalIsExact(s: State, context: string, frames: set<string>, directory: Path, now: nat)
    ensures var t := PrepareUser(s, context, frames, directory, now).state;
            match Unexpired(s.grant, now)
            case Some(g) =>
              if g.context == context && g.source.User? then t == s.(grant := Some(g.(expiresAt := now + 10_000)))
              else t == s
            case None =>
              if frames == {} then t.grant == None && OnlyApproval(s, t)
              else
                && t.allows
                && t.grant == Some(Grant(context, directory, now + 10_000, frames, User))
                && t.log == s.log + [Granted(context, directory, User)]
                && t.downloads == s.downloads && t.reserved == s.reserved
    ensures PrepareUser(s, context, frames, directory, now).error.None?
  {
    ExpiryIsExact(s, now);
  }

  /** The approval is for the frame and, if the agent's, for the URL. */
  predicate IsApproved(s: State, b: Beginning) {
    match s.grant
    case None => false
    case Some(g) =>
      b.frame in g.frames && (match g.source case User => true case Agent(_, url) => url == b.url)
  }

  predicate IsFirstFree(b: Beginning, reserved: set<Path>, k: nat) {
    && !b.onDisk(b.names(k)) && b.names(k) !in reserved
    && forall j :: 0 <= j < k ==> b.onDisk(b.names(j)) || b.names(j) in reserved
  }

  lemma {:induction false} FirstFreeIs(b: Beginning, reserved: set<Path>, from: nat, k: nat)
    requires from <= k < 10_000 && IsFirstFree(b, reserved, k)
    ensures FirstFree(b, reserved, from) == Some(b.names(k))
    decreases k - from
  {
    if from < k {
      assert !IsFree(b, reserved, from);
      FirstFreeIs(b, reserved, from + 1, k);
    }
  }

  /** A download without an approval is cancelled at the browser, and nothing else happens. */
  lemma UnapprovedIsCancelled(s: State, b: Beginning)
    requires !IsApproved(s, b)
    ensures WillBegin(s, b) == Outcome(s.(log := s.log + [CancelRequested(b.guid)]), None)
  {
  }

  /** The seventeenth download is cancelled too; it uses up its approval. */
  lemma OverTheLimitIsCancelled(s: State, b: Beginning)
    requires IsApproved(s, b) && |s.downloads| >= 16
    ensures var outcome := WillBegin(s, b);
            && outcome.error.None? && outcome.state.grant.None?
            && outcome.state.log == s.log + [CancelRequested(b.guid), LimitReached]
            && outcome.state.downloads == s.downloads && outcome.state.reserved == s.reserved
  {
    assert s.log + [CancelRequested(b.guid)] + [LimitReached] == s.log + [CancelRequested(b.guid), LimitReached];
  }

  /** An approved download begins under the first free name, and uses up its approval. It waits for
      a destination exactly if the user began it and is to be asked. */
  lemma ApprovedBegins(s: State, b: Beginning, k: nat)
    requires IsApproved(s, b) && |s.downloads| < 16 && k < 10_000 && IsFirstFree(b, s.reserved, k)
    ensures var t := WillBegin(s, b).state;
            var g := s.grant.value;
            var path := b.names(k);
            && WillBegin(s, b).error.None?
            && b.guid in t.downloads && t.downloads - {b.guid} == s.downloads - {b.guid}
            && t.reserved == s.reserved + {path} && t.grant == None
            && t.log == s.log + [Changed(b.guid, Started)]
            && var d := t.downloads[b.guid];
               && d.userInitiated == g.source.User? && d.url == b.url
               && d.context == g.context && d.directory == g.directory
               && d.defaultDestination == path && !d.overwrite
               && d.savePromptPending == (g.source.User? && b.prompt)
               && d.destination == (if d.savePromptPending then None else Some(path))
               && d.completedSource == None && !d.paused && !d.canResume && d.received == 0 && d.total == 0
  {
    FirstFreeIs(b, s.reserved, 0, k);
  }

  /** The download with new numbers. */
  function Counted(d: Download, received: nat, total: nat): Download { d.(received := received, total := total) }

  /** While a transfer runs its numbers are kept up, and it is reported as running or paused; one
      that is not known is cancelled. */
  lemma RunningIsReported(s: State, guid: Guid, received: nat, total: nat)
    ensures var t := OnProgress(s, guid, InProgressEvent, received, total).state;
            if guid in s.downloads then
              && t.downloads == s.downloads[guid := Counted(s.downloads[guid], received, total)]
              && t.log == s.log + [Changed(guid, if s.downloads[guid].paused then Paused else InProgress)]
              && t.(downloads := s.downloads, log := s.log) == s
            else t == s.(log := s.log + [CancelRequested(guid)])
  {
  }

  // Other events of a transfer that is not known change nothing.
  lemma UnknownIsIgnored(s: State, guid: Guid, progress: Progress, received: nat, total: nat)
    requires guid !in s.downloads && !progress.InProgressEvent?
    ensures OnProgress(s, guid, progress, received, total) == Outcome(s, None)
  {
  }

  /** The download is over: its path is free, the others stay as they are. */
  predicate IsDone(s: State, t: State, guid: Guid, path: Path, status: Status) {
    && t.downloads == s.downloads - {guid} && t.reserved == s.reserved - {path}
    && t.grant == s.grant && t.log == s.log + [Changed(guid, status)]
  }

  /** A transfer that the browser cancels is over. */
  lemma CancellationIsReported(s: State, guid: Guid, received: nat, total: nat)
    requires guid in s.downloads
    ensures var d := s.downloads[guid];
            var path := if d.destination.Some? then d.destination.value else d.defaultDestination;
            IsDone(s, OnProgress(s, guid, CanceledEvent, received, total).state, guid, path, Canceled)
  {
  }

  /** A completed transfer that waits for a destination waits on with its file, not paused. */
  lemma CompletionWaits(s: State, guid: Guid, source: Path, moved: bool, received: nat, total: nat)
    requires guid in s.downloads && s.downloads[guid].savePromptPending && s.downloads[guid].destination.None?
    ensures var t := OnProgress(s, guid, CompletedEvent(source, moved), received, total).state;
            var d := Counted(s.downloads[guid], received, total);
            && t.downloads == s.downloads[guid :=
               d.(paused := false, canResume := false, completedSource := Some(source))]
            && t.log == s.log + [Changed(guid, InProgress)]
            && t.(downloads := s.downloads, log := s.log) == s
  {
  }

  /** An answer to a prompt that is not open, or a path that cannot be taken, changes nothing. */
  lemma AnswersAreRefused(s: State, guid: Guid, choice: Option<Path>, usable: bool, moved: bool)
    ensures var outcome := SetDestination(s, guid, choice, usable, moved);
            var asked := guid in s.downloads && s.downloads[guid].userInitiated && s.downloads[guid].savePromptPending;
            && (outcome.error.None? <==>
                && asked
                && (choice.Some? ==>
                      && usable
                      && (choice.value == s.downloads[guid].defaultDestination || choice.value !in s.reserved)))
            && (outcome.error.Some? ==> outcome.state == s)
            && (outcome.error == Some(PathUnavailable) <==> choice.Some? && !usable)
            && (outcome.error == Some(NotActive) <==> (choice.Some? ==> usable) && guid !in s.downloads)
            && (outcome.error == Some(NotWaiting) <==> (choice.Some? ==> usable) && guid in s.downloads && !asked)
            && (outcome.error.Some? && (choice.Some? ==> usable) && asked ==> outcome.error == Some(AlreadyReserved))
  {
  }

  /** Declining a prompt cancels the download: at once if the file is there, else at the browser. */
  lemma DeclineIsExact(s: State, guid: Guid, usable: bool, moved: bool)
    requires guid in s.downloads && s.downloads[guid].userInitiated && s.downloads[guid].savePromptPending
    ensures var d := s.downloads[guid];
            var t := SetDestination(s, guid, None, usable, moved).state;
            if d.completedSource.Some? then
              IsDone(s, t, guid, if d.destination.Some? then d.destination.value else d.defaultDestination, Canceled)
            else
              t == s.(downloads := s.downloads[guid := d.(savePromptPending := false)],
                      log := s.log + [CancelRequested(guid)])
  {
  }

  /** A chosen destination is kept for the transfer, and reserved instead of the default one. */
  lemma ChoiceIsExact(s: State, guid: Guid, path: Path, moved: bool)
    requires Inv(s) && Answerable(s, guid, path) && s.downloads[guid].completedSource.None?
    ensures var d := s.downloads[guid];
            var t := SetDestination(s, guid, Some(path), true, moved).state;
            && t.downloads == s.downloads[guid :=
               d.(destination := Some(path), savePromptPending := false, overwrite := true)]
            && t.reserved == s.reserved - {d.defaultDestination} + {path}
            && (d.paused ==> t.log == s.log + [Changed(guid, Paused)])
            && (!d.paused ==> t.log == s.log + [Changed(guid, if d.received > 0 then InProgress else Started)])
            && t.grant == s.grant && t.allows == s.allows
  {
    AnsweredIs(s, guid, path, moved);
    var d := s.downloads[guid].(
      destination := Some(path), savePromptPending := false, overwrite := true, completedSource := None);
    ReplacedAndRemoved(s.downloads, guid, d, d);
  }

  /** Cancelling declines an open prompt, and otherwise asks the browser. */
  lemma CancelIsExact(s: State, guid: Guid)
    requires Inv(s)
    ensures var outcome := Cancel(s, guid);
            if guid !in s.downloads then outcome == Outcome(s, Some(NotActive))
            else if s.downloads[guid].savePromptPending then outcome == SetDestination(s, guid, None, true, true)
            else outcome == Outcome(s.(log := s.log + [CancelRequested(guid)]), None)
  {
  }

  /** A transfer is paused if it runs and the browser agrees, which also says whether it can be
      resumed; a refusal leaves no trace. */
  lemma PauseIsExact(s: State, guid: Guid, answer: Option<bool>)
    ensures var outcome := Pause(s, guid, answer);
            && (outcome.error.None? <==>
                && guid in s.downloads && !s.downloads[guid].paused && s.downloads[guid].completedSource.None?
                && answer.Some?)
            && (outcome.error.Some? ==> outcome.state == s)
            && (outcome.error == Some(NotActive) <==> guid !in s.downloads)
            && (outcome.error == Some(NotPausable) <==>
                guid in s.downloads && (s.downloads[guid].paused || s.downloads[guid].completedSource.Some?))
            && (outcome.error.Some? ==> outcome.error.value in {NotActive, NotPausable, TransferFailed})
            && (outcome.error.None? ==>
                outcome.state == s.(
                  downloads := s.downloads[guid := s.downloads[guid].(paused := true, canResume := answer.value)],
                  log := s.log + [Changed(guid, Paused)]))
  {
  }

  /** A transfer is resumed if it is paused, can be resumed and the browser agrees. */
  lemma ResumeIsExact(s: State, guid: Guid, answered: bool)
    ensures var outcome := Resume(s, guid, answered);
            && (outcome.error.None? <==>
                guid in s.downloads && s.downloads[guid].paused && s.downloads[guid].canResume && answered)
            && (outcome.error.Some? ==> outcome.state == s)
            && (outcome.error == Some(NotActive) <==> guid !in s.downloads)
            && (outcome.error == Some(NotResumable) <==>
                guid in s.downloads && !(s.downloads[guid].paused && s.downloads[guid].canResume))
            && (outcome.error.Some? ==> outcome.error.value in {NotActive, NotResumable, TransferFailed})
            && (outcome.error.None? ==>
                outcome.state == s.(
                  downloads := s.downloads[guid := s.downloads[guid].(paused := false, canResume := false)],
                  log := s.log + [Changed(guid, InProgress)]))
  {
  }

  // ----- in every run -----

  /** Ten seconds after it was given or asked for, no approval admits a download: once the time was
      looked at, a pending approval was given, or extended by the user, less than ten seconds ago. */
  predicate IsYoung(s: State, now: nat) {
    s.grant.Some? ==> now < s.grant.value.expiresAt <= now + 10_000
  }

  /** The time an operation looks at, if it does. */
  function TimeOf(op: Op): Option<nat> {
    match op
    case ExpireOp(now) => Some(now)
    case AllowOp(_, _, _, _, _, now) => Some(now)
    case PrepareOp(_, _, _, now) => Some(now)
    case _ => None
  }

  /** The clock does not run backwards from `clock` on. */
  predicate InTime(ops: seq<Op>, clock: nat)
    decreases |ops|
  {
    ops == [] ||
    (match TimeOf(ops[0])
     case None => InTime(ops[1..], clock)
     case Some(now) => clock <= now && InTime(ops[1..], now))
  }

  /** The latest time that was looked at. */
  function Clock(ops: seq<Op>, clock: nat): nat
    decreases |ops|
  {
    if ops == [] then clock
    else match TimeOf(ops[0]) case None => Clock(ops[1..], clock) case Some(now) => Clock(ops[1..], now)
  }

  lemma StepKeepsYoung(s: State, op: Op, clock: nat)
    requires IsYoung(s, clock) && (TimeOf(op).Some? ==> clock <= TimeOf(op).value)
    ensures IsYoung(Apply(s, op).state, if TimeOf(op).Some? then TimeOf(op).value else clock)
  {
    match op
    case ExpireOp(now) => ExpiryIsExact(s, now);
    case RevokeOp(tab) => RevocationIsExact(s, tab);
    case AllowOp(context, tab, url, frames, directory, now) =>
      AgentApprovalIsExact(s, context, tab, url, frames, directory, now);
    case PrepareOp(context, frames, directory, now) => UserApprovalIsExact(s, context, frames, directory, now);
    case BeginOp(b) =>
    case _ =>
  }

  lemma {:induction false} ApprovalsAreYoung(s: State, ops: seq<Op>, clock: nat)
    requires IsYoung(s, clock) && InTime(ops, clock)
    ensures IsYoung(After(s, ops), Clock(ops, clock))
    decreases |ops|
  {
    if ops != [] {
      StepKeepsYoung(s, ops[0], clock);
      ApprovalsAreYoung(Apply(s, ops[0]).state, ops[1..], if TimeOf(ops[0]).Some? then TimeOf(ops[0]).value else clock);
    }
  }
}
