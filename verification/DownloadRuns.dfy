/** What holds in every run of the Browser's downloads
    (crates/codex-platform/src/browser.rs, the download methods of `BrowserRuntime`).

    A run starts after the set-up of the browser, gives every download it begins an identifier
    that has not been used, and is over when handling an event fails. */
module DownloadRuns {

  import opened Downloads
  import opened Wrappers

  // ----- the history of one download -----

  datatype Phase = Unseen | Running | Ended | Broken

  function NextPhase(phase: Phase, status: Status): Phase {
    if phase.Unseen? && status.Started? then Running
    else if phase.Running? then (if IsTerminal(status) then Ended else Running)
    else Broken
  }

  function PhaseOf(log: seq<Event>, guid: Guid): Phase {
    if log == [] then Unseen
    else
      var before := PhaseOf(log[..|log| - 1], guid);
      var e := log[|log| - 1];
      if e.Changed? && e.guid == guid then NextPhase(before, e.status) else before
  }

  /** The statuses recorded for a download, in order. */
  function Statuses(log: seq<Event>, guid: Guid): seq<Status> {
    if log == [] then []
    else
      var before := Statuses(log[..|log| - 1], guid);
      var e := log[|log| - 1];
      if e.Changed? && e.guid == guid then before + [e.status] else before
  }

  /** Started first, and nothing after a status that ends the download. */
  ghost predicate IsHistory(statuses: seq<Status>) {
    && (statuses != [] ==> statuses[0] == Started)
    && forall i :: 0 <= i < |statuses| - 1 ==> !IsTerminal(statuses[i])
  }

  ghost predicate IsGoingOn(statuses: seq<Status>) {
    statuses != [] && !IsTerminal(statuses[|statuses| - 1])
  }

  lemma {:induction false} PhaseMeans(log: seq<Event>, guid: Guid)
    ensures PhaseOf(log, guid) != Broken <==> IsHistory(Statuses(log, guid))
    ensures PhaseOf(log, guid) == Unseen <==> Statuses(log, guid) == []
    ensures PhaseOf(log, guid) == Running <==> IsHistory(Statuses(log, guid)) && IsGoingOn(Statuses(log, guid))
  {
    if log != [] {
      var earlier := log[..|log| - 1];
      PhaseMeans(earlier, guid);
      var e := log[|log| - 1];
      if e.Changed? && e.guid == guid {
        HistoryGrows(Statuses(earlier, guid), e.status);
      }
    }
  }

  lemma HistoryGrows(statuses: seq<Status>, status: Status)
    ensures IsHistory(statuses + [status]) <==>
            if statuses == [] then status == Started else IsHistory(statuses) && IsGoingOn(statuses)
    ensures IsGoingOn(statuses + [status]) <==> !IsTerminal(status)
  {
    var grown := statuses + [status];
    if IsHistory(grown) && statuses != [] {
      assert grown[0] == statuses[0];
      forall i | 0 <= i < |statuses| ensures !IsTerminal(statuses[i]) {
        assert grown[i] == statuses[i];
      }
    }
  }

  lemma PhaseStep(log: seq<Event>, e: Event, guid: Guid)
    ensures PhaseOf(log + [e], guid) ==
            if e.Changed? && e.guid == guid then NextPhase(PhaseOf(log, guid), e.status) else PhaseOf(log, guid)
  {
    assert (log + [e])[..|log|] == log;
  }

  // ----- the approvals -----

  function Grants(log: seq<Event>): nat {
    if log == [] then 0 else Grants(log[..|log| - 1]) + if log[|log| - 1].Granted? then 1 else 0
  }

  function IsBeginning(log: seq<Event>, e: Event): bool {
    e.Changed? && PhaseOf(log, e.guid) == Unseen
  }

  /** The downloads that were begun. */
  function Begun(log: seq<Event>): nat {
    if log == [] then 0
    else Begun(log[..|log| - 1]) + if IsBeginning(log[..|log| - 1], log[|log| - 1]) then 1 else 0
  }

  lemma CountsStep(log: seq<Event>, e: Event)
    ensures Grants(log + [e]) == Grants(log) + if e.Granted? then 1 else 0
    ensures Begun(log + [e]) == Begun(log) + if IsBeginning(log, e) then 1 else 0
  {
    assert (log + [e])[..|log|] == log;
  }

  // ----- the invariant -----

  ghost function Paths(downloads: map<Guid, Download>): set<Path> {
    set guid | guid in downloads :: DownloadPath(downloads[guid])
  }

  ghost predicate Distinct(downloads: map<Guid, Download>) {
    forall g, h :: g in downloads && h in downloads && g != h ==>
      DownloadPath(downloads[g]) != DownloadPath(downloads[h])
  }

  /** A finished file is held back only while its save prompt is open, without a destination and
      not paused. */
  predicate Sane(d: Download) {
    && (d.completedSource.Some? ==> d.savePromptPending && !d.paused)
    && (d.savePromptPending ==> d.userInitiated && d.destination.None?)
    && (d.canResume ==> d.paused)
  }

  ghost predicate Books(downloads: map<Guid, Download>, reserved: set<Path>) {
    && |downloads| <= MAX_DOWNLOADS
    && reserved == Paths(downloads)
    && Distinct(downloads)
    && forall guid :: guid in downloads ==> Sane(downloads[guid])
  }

  ghost predicate Histories(log: seq<Event>, active: set<Guid>) {
    forall guid: Guid :: PhaseOf(log, guid) != Broken && (PhaseOf(log, guid) == Running <==> guid in active)
  }

  predicate IsNeeded(s: State) { s.grant.Some? || s.downloads != map[] }

  /** The browser was told what the runtime remembers, and at least allows what is needed. */
  predicate AtLeastAllows(s: State) { s.behavior == Some(s.allows) && (IsNeeded(s) ==> s.allows) }

  predicate AllowsWhatIsNeeded(s: State) { s.behavior == Some(s.allows) && (s.allows <==> IsNeeded(s)) }

  predicate Approved(log: seq<Event>, grant: Option<Grant>) {
    Begun(log) + (if grant.Some? then 1 else 0) <= Grants(log)
  }

  ghost predicate Kept(s: State) {
    Books(s.downloads, s.reserved) && Histories(s.log, s.downloads.Keys) && Approved(s.log, s.grant)
  }

  ghost predicate Inv(s: State) { Kept(s) && AllowsWhatIsNeeded(s) }

  // ----- what the parts of a step do to it -----

  lemma PathsAdd(downloads: map<Guid, Download>, guid: Guid, d: Download)
    requires guid !in downloads
    ensures Paths(downloads[guid := d]) == Paths(downloads) + {DownloadPath(d)}
  {
    var after := downloads[guid := d];
    forall p | p in Paths(downloads) ensures p in Paths(after) {
      var g :| g in downloads && DownloadPath(downloads[g]) == p;
      assert g in after && after[g] == downloads[g];
    }
    assert guid in after && after[guid] == d;
  }

  lemma BooksAdd(downloads: map<Guid, Download>, reserved: set<Path>, guid: Guid, d: Download)
    requires Books(downloads, reserved) && guid !in downloads && Sane(d) && |downloads| < MAX_DOWNLOADS
    requires DownloadPath(d) !in reserved
    ensures Books(downloads[guid := d], reserved + {DownloadPath(d)})
  {
    var after := downloads[guid := d];
    assert after.Keys == downloads.Keys + {guid};
    assert |after| == |after.Keys| && |downloads| == |downloads.Keys|;
    PathsAdd(downloads, guid, d);
    forall g | g in downloads ensures DownloadPath(downloads[g]) != DownloadPath(d) {
      assert DownloadPath(downloads[g]) in Paths(downloads);
    }
  }

  lemma BooksRemove(downloads: map<Guid, Download>, reserved: set<Path>, guid: Guid)
    requires Books(downloads, reserved) && guid in downloads
    ensures Books(downloads - {guid}, reserved - {DownloadPath(downloads[guid])})
    ensures (downloads - {guid}).Keys == downloads.Keys - {guid} && |downloads - {guid}| == |downloads| - 1
  {
    var after := downloads - {guid};
    assert after.Keys == downloads.Keys - {guid};
    assert |after| == |after.Keys| && |downloads| == |downloads.Keys|;
    forall p ensures p in Paths(after) <==> p in Paths(downloads) && p != DownloadPath(downloads[guid]) {
      if p in Paths(downloads) && p != DownloadPath(downloads[guid]) {
        var g :| g in downloads && DownloadPath(downloads[g]) == p;
        assert g in after && DownloadPath(after[g]) == p;
      }
      if p in Paths(after) {
        var g :| g in after && DownloadPath(after[g]) == p;
        assert g in downloads && g != guid && DownloadPath(downloads[g]) == p;
      }
    }
  }

  lemma BooksReplace(downloads: map<Guid, Download>, reserved: set<Path>, guid: Guid, d: Download)
    requires Books(downloads, reserved) && guid in downloads && Sane(d)
    requires DownloadPath(d) == DownloadPath(downloads[guid]) || DownloadPath(d) !in reserved
    ensures Books(downloads[guid := d], reserved - {DownloadPath(downloads[guid])} + {DownloadPath(d)})
    ensures downloads[guid := d].Keys == downloads.Keys
  {
    var others := downloads - {guid};
    BooksRemove(downloads, reserved, guid);
    BooksAdd(others, reserved - {DownloadPath(downloads[guid])}, guid, d);
    assert others[guid := d] == downloads[guid := d];
  }

  // The common case: the path does not change.
  lemma BooksUpdate(downloads: map<Guid, Download>, reserved: set<Path>, guid: Guid, d: Download)
    requires Books(downloads, reserved) && guid in downloads && Sane(d)
    requires DownloadPath(d) == DownloadPath(downloads[guid])
    ensures Books(downloads[guid := d], reserved)
    ensures downloads[guid := d].Keys == downloads.Keys
  {
    BooksReplace(downloads, reserved, guid, d);
    var path := DownloadPath(d);
    assert path in Paths(downloads);
    assert reserved - {path} + {path} == reserved;
  }

  lemma HistoriesStep(log: seq<Event>, active: set<Guid>, guid: Guid, status: Status)
    requires Histories(log, active)
    requires if guid in active then true else PhaseOf(log, guid) == Unseen && status.Started?
    ensures Histories(log + [Changed(guid, status)], if IsTerminal(status) then active - {guid} else active + {guid})
  {
    forall g ensures PhaseOf(log + [Changed(guid, status)], g) ==
                     if g == guid then (if IsTerminal(status) then Ended else Running) else PhaseOf(log, g)
    {
      PhaseStep(log, Changed(guid, status), g);
      assert PhaseOf(log, g) != Broken;
    }
  }

  lemma HistoriesSkip(log: seq<Event>, active: set<Guid>, e: Event)
    requires Histories(log, active) && !e.Changed?
    ensures Histories(log + [e], active)
  {
    forall g ensures PhaseOf(log + [e], g) == PhaseOf(log, g) {
      PhaseStep(log, e, g);
    }
  }

  lemma RecordKeeps(s: State, e: Event)
    requires Kept(s) && !e.Changed? && !e.Granted?
    ensures Kept(Record(s, e))
  {
    HistoriesSkip(s.log, s.downloads.Keys, e);
    CountsStep(s.log, e);
  }

  lemma DenyRestores(s: State)
    requires Kept(s) && AtLeastAllows(s)
    ensures Inv(DenyIfUnused(s))
  {
  }

  lemma DropGrantKeeps(s: State)
    requires Inv(s)
    ensures Kept(s.(grant := None)) && AtLeastAllows(s.(grant := None))
    ensures Inv(DenyIfUnused(s.(grant := None)))
  {
    DenyRestores(s.(grant := None));
  }

  lemma ApproveKeeps(s: State, grant: Grant)
    requires Inv(s) && s.grant.None?
    ensures Inv(Approve(s, grant))
  {
    HistoriesSkip(s.log, s.downloads.Keys, GrantEvent(grant));
    CountsStep(s.log, GrantEvent(grant));
  }

  lemma UpdateKeeps(s: State, guid: Guid, d: Download, status: Status)
    requires Inv(s) && guid in s.downloads && Sane(d) && !IsTerminal(status)
    requires DownloadPath(d) == DownloadPath(s.downloads[guid])
    ensures Inv(Update(s, guid, d, status))
  {
    BooksUpdate(s.downloads, s.reserved, guid, d);
    HistoriesStep(s.log, s.downloads.Keys, guid, status);
    assert s.downloads.Keys + {guid} == s.downloads.Keys;
    CountsStep(s.log, Changed(guid, status));
    assert PhaseOf(s.log, guid) == Running;
  }

  lemma CloseKeeps(s: State, guid: Guid, status: Status)
    requires Inv(s) && guid in s.downloads && IsTerminal(status)
    ensures Inv(Close(s, guid, status))
  {
    BooksRemove(s.downloads, s.reserved, guid);
    HistoriesStep(s.log, s.downloads.Keys, guid, status);
    CountsStep(s.log, Changed(guid, status));
    assert PhaseOf(s.log, guid) == Running;
    var closed := Record(
      s.(downloads := s.downloads - {guid}, reserved := s.reserved - {DownloadPath(s.downloads[guid])}),
      Changed(guid, status));
    DenyRestores(closed);
  }

  lemma BeginKeeps(s: State, b: Beginning, path: Path)
    requires Inv(s) && s.grant.Some? && |s.downloads| < MAX_DOWNLOADS && path !in s.reserved
    requires PhaseOf(s.log, b.guid) == Unseen
    ensures Inv(Begin(s, s.grant.value, b, path))
  {
    var d := NewDownload(s.grant.value, b, path);
    BooksAdd(s.downloads, s.reserved, b.guid, d);
    HistoriesStep(s.log, s.downloads.Keys, b.guid, Started);
    CountsStep(s.log, Changed(b.guid, Started));
    assert s.downloads[b.guid := d].Keys == s.downloads.Keys + {b.guid};
  }

  // A destination may be chosen that is the default one or that no download has reserved.
  lemma RedirectKeeps(s: State, guid: Guid, path: Path)
    requires Inv(s) && guid in s.downloads && s.downloads[guid].savePromptPending
    requires path == s.downloads[guid].defaultDestination || path !in s.reserved
    ensures Inv(Redirect(s, guid, path))
  {
    var d := s.downloads[guid];
    var redirected :=
      d.(destination := Some(path), savePromptPending := false, overwrite := true, completedSource := None);
    BooksReplace(s.downloads, s.reserved, guid, redirected);
  }

  // ----- the operations -----

  datatype Op =
    | ExpireOp(now: nat)
    | RevokeOp(tab: nat)
    | AllowOp(context: string, tab: nat, url: string, frames: set<string>, directory: Path, now: nat)
    | PrepareOp(context: string, frames: set<string>, directory: Path, now: nat)
    | BeginOp(beginning: Beginning)
    | ProgressOp(guid: Guid, progress: Progress, received: nat, total: nat)
    | DestinationOp(guid: Guid, choice: Option<Path>, usable: bool, moved: bool)
    | CancelOp(guid: Guid)
    | PauseOp(guid: Guid, answer: Option<bool>)
    | ResumeOp(guid: Guid, answered: bool)

  function Apply(s: State, op: Op): Outcome {
    match op
    case ExpireOp(now) => Done(Expire(s, now))
    case RevokeOp(tab) => Done(RevokeForTab(s, tab))
    case AllowOp(context, tab, url, frames, directory, now) =>
      AllowAgent(s, context, Agent(tab, url), frames, directory, now)
    case PrepareOp(context, frames, directory, now) => PrepareUser(s, context, frames, directory, now)
    case BeginOp(b) => WillBegin(s, b)
    case ProgressOp(guid, progress, received, total) => OnProgress(s, guid, progress, received, total)
    case DestinationOp(guid, choice, usable, moved) => SetDestination(s, guid, choice, usable, moved)
    case CancelOp(guid) => Cancel(s, guid)
    case PauseOp(guid, answer) => Pause(s, guid, answer)
    case ResumeOp(guid, answered) => Resume(s, guid, answered)
  }

  predicate UsesFreshGuid(s: State, op: Op) {
    op.BeginOp? ==> PhaseOf(s.log, op.beginning.guid) == Unseen
  }

  predicate EndsSession(outcome: Outcome) { outcome.error == Some(NoUniqueFilename) }

  lemma ExpireKeeps(s: State, now: nat)
    requires Inv(s)
    ensures Inv(Expire(s, now))
  {
    DropGrantKeeps(s);
  }

  lemma WillBeginKeeps(s: State, b: Beginning)
    requires Inv(s) && PhaseOf(s.log, b.guid) == Unseen
    ensures var outcome := WillBegin(s, b); EndsSession(outcome) || Inv(outcome.state)
  {
    if !Admits(s.grant, b) {
      RecordKeeps(s, CancelRequested(b.guid));
    } else if |s.downloads| >= MAX_DOWNLOADS {
      DropGrantKeeps(s);
      var without := s.(grant := None);
      RecordKeeps(without, CancelRequested(b.guid));
      RecordKeeps(Record(without, CancelRequested(b.guid)), LimitReached);
      DenyRestores(Record(Record(without, CancelRequested(b.guid)), LimitReached));
    } else {
      var path := FirstFree(b, s.reserved, 0);
      if path.Some? {
        BeginKeeps(s, b, path.value);
      }
    }
  }

  lemma OnProgressKeeps(s: State, guid: Guid, progress: Progress, received: nat, total: nat)
    requires Inv(s)
    ensures Inv(OnProgress(s, guid, progress, received, total).state)
  {
    if guid !in s.downloads {
      RecordKeeps(s, CancelRequested(guid));
    } else {
      var d := s.downloads[guid].(received := received, total := total);
      match progress
      case InProgressEvent => UpdateKeeps(s, guid, d, if d.paused then Paused else InProgress);
      case CompletedEvent(source, moved) =>
        if d.savePromptPending && d.destination.None? {
          UpdateKeeps(s, guid, d.(paused := false, canResume := false, completedSource := Some(source)), InProgress);
        } else {
          CloseKeeps(s, guid, if d.destination.Some? then MoveStatus(moved) else Canceled);
        }
      case CanceledEvent => CloseKeeps(s, guid, Canceled);
      case OtherEvent =>
    }
  }

  lemma DeclineKeeps(s: State, guid: Guid)
    requires Inv(s) && guid in s.downloads && s.downloads[guid].completedSource.None?
    ensures var d := s.downloads[guid].(savePromptPending := false);
            Inv(Record(s.(downloads := s.downloads[guid := d]), CancelRequested(guid)))
  {
    var d := s.downloads[guid].(savePromptPending := false);
    BooksUpdate(s.downloads, s.reserved, guid, d);
    RecordKeeps(s.(downloads := s.downloads[guid := d]), CancelRequested(guid));
  }

  lemma ChooseKeeps(s: State, guid: Guid, path: Path, moved: bool)
    requires Inv(s) && guid in s.downloads && s.downloads[guid].savePromptPending
    requires path == s.downloads[guid].defaultDestination || path !in s.reserved
    ensures var redirected := Redirect(s, guid, path);
            && Inv(Close(redirected, guid, MoveStatus(moved)))
            && forall status | !IsTerminal(status) :: Inv(Update(redirected, guid, redirected.downloads[guid], status))
  {
    RedirectKeeps(s, guid, path);
    var redirected := Redirect(s, guid, path);
    CloseKeeps(redirected, guid, MoveStatus(moved));
    forall status | !IsTerminal(status) ensures Inv(Update(redirected, guid, redirected.downloads[guid], status)) {
      UpdateKeeps(redirected, guid, redirected.downloads[guid], status);
    }
  }

  lemma SetDestinationKeeps(s: State, guid: Guid, choice: Option<Path>, usable: bool, moved: bool)
    requires Inv(s)
    ensures Inv(SetDestination(s, guid, choice, usable, moved).state)
  {
    if guid in s.downloads && s.downloads[guid].savePromptPending {
      var d := s.downloads[guid];
      if choice.None? {
        if d.completedSource.Some? {
          CloseKeeps(s, guid, Canceled);
        } else {
          DeclineKeeps(s, guid);
        }
      } else if choice.value == d.defaultDestination || choice.value !in s.reserved {
        ChooseKeeps(s, guid, choice.value, moved);
      }
    }
  }

  lemma CancelKeeps(s: State, guid: Guid)
    requires Inv(s)
    ensures Inv(Cancel(s, guid).state)
  {
    SetDestinationKeeps(s, guid, None, true, true);
    RecordKeeps(s, CancelRequested(guid));
  }

  lemma PauseKeeps(s: State, guid: Guid, answer: Option<bool>)
    requires Inv(s)
    ensures Inv(Pause(s, guid, answer).state)
  {
    if guid in s.downloads {
      var d := s.downloads[guid];
      if d.completedSource.None? && answer.Some? {
        UpdateKeeps(s, guid, d.(paused := true, canResume := answer.value), Paused);
      }
    }
  }

  lemma ResumeKeeps(s: State, guid: Guid, answered: bool)
    requires Inv(s)
    ensures Inv(Resume(s, guid, answered).state)
  {
    if guid in s.downloads {
      UpdateKeeps(s, guid, s.downloads[guid].(paused := false, canResume := false), InProgress);
    }
  }

  lemma AllowIs(s: State, context: string, source: Source, frames: set<string>, directory: Path, now: nat)
    requires source.Agent?
    ensures var expired := Expire(s, now);
            var t := AllowAgent(s, context, source, frames, directory, now).state;
            || t == expired
            || (expired.grant.None?
                && t == Approve(expired, Grant(context, directory, now + GRANT_TIMEOUT, frames, source)))
  {
  }

  lemma AllowKeeps(s: State, context: string, source: Source, frames: set<string>, directory: Path, now: nat)
    requires Inv(s) && source.Agent?
    ensures Inv(AllowAgent(s, context, source, frames, directory, now).state)
  {
    ExpireKeeps(s, now);
    AllowIs(s, context, source, frames, directory, now);
    var expired := Expire(s, now);
    if expired.grant.None? {
      ApproveKeeps(expired, Grant(context, directory, now + GRANT_TIMEOUT, frames, source));
    }
  }

  lemma PrepareIs(s: State, context: string, frames: set<string>, directory: Path, now: nat)
    ensures var expired := Expire(s, now);
            var t := PrepareUser(s, context, frames, directory, now).state;
            || t == expired
            || (expired.grant.None?
                && t == Approve(expired, Grant(context, directory, now + GRANT_TIMEOUT, frames, User)))
            || (expired.grant.Some?
                && t == expired.(grant := Some(expired.grant.value.(expiresAt := now + GRANT_TIMEOUT))))
  {
  }

  lemma ExtendKeeps(s: State, grant: Grant)
    requires Inv(s) && s.grant.Some?
    ensures Inv(s.(grant := Some(grant)))
  {
  }

  lemma PrepareKeeps(s: State, context: string, frames: set<string>, directory: Path, now: nat)
    requires Inv(s)
    ensures Inv(PrepareUser(s, context, frames, directory, now).state)
  {
    ExpireKeeps(s, now);
    PrepareIs(s, context, frames, directory, now);
    var expired := Expire(s, now);
    if expired.grant.None? {
      ApproveKeeps(expired, Grant(context, directory, now + GRANT_TIMEOUT, frames, User));
    } else {
      ExtendKeeps(expired, expired.grant.value.(expiresAt := now + GRANT_TIMEOUT));
    }
  }

  /** Every operation that does not end the session keeps the invariant. */
  lemma ApplyKeeps(s: State, op: Op)
    requires Inv(s) && UsesFreshGuid(s, op)
    ensures EndsSession(Apply(s, op)) || Inv(Apply(s, op).state)
  {
    match op
    case ExpireOp(now) => ExpireKeeps(s, now);
    case RevokeOp(tab) => DropGrantKeeps(s);
    case AllowOp(context, tab, url, frames, directory, now) =>
      AllowKeeps(s, context, Agent(tab, url), frames, directory, now);
    case PrepareOp(context, frames, directory, now) => PrepareKeeps(s, context, frames, directory, now);
    case BeginOp(b) => WillBeginKeeps(s, b);
    case ProgressOp(guid, progress, received, total) => OnProgressKeeps(s, guid, progress, received, total);
    case DestinationOp(guid, choice, usable, moved) => SetDestinationKeeps(s, guid, choice, usable, moved);
    case CancelOp(guid) => CancelKeeps(s, guid);
    case PauseOp(guid, answer) => PauseKeeps(s, guid, answer);
    case ResumeOp(guid, answered) => ResumeKeeps(s, guid, answered);
  }

  // ----- runs -----

  /** Every operation finds its session alive and begins no download twice. */
  predicate IsRun(s: State, ops: seq<Op>)
    decreases |ops|
  {
    ops == [] || (UsesFreshGuid(s, ops[0]) && !EndsSession(Apply(s, ops[0])) && IsRun(Apply(s, ops[0]).state, ops[1..]))
  }

  function After(s: State, ops: seq<Op>): State
    decreases |ops|
  {
    if ops == [] then s else After(Apply(s, ops[0]).state, ops[1..])
  }

  lemma {:induction false} RunKeepsInv(s: State, ops: seq<Op>)
    requires Inv(s) && IsRun(s, ops)
    ensures Inv(After(s, ops))
    decreases |ops|
  {
    if ops != [] {
      ApplyKeeps(s, ops[0]);
      RunKeepsInv(Apply(s, ops[0]).state, ops[1..]);
    }
  }

  lemma SetUpHolds()
    ensures Inv(AfterSetUp())
  {
    assert Paths(map[]) == {};
  }

  /** In every run the reserved paths are exactly the chosen or default paths of the downloads in
      flight, no two of them share one, and the browser allows downloads exactly while an approval
      is pending or a download is in flight. */
  lemma ReservationsAndPermission(ops: seq<Op>)
    requires IsRun(AfterSetUp(), ops)
    ensures var s := After(AfterSetUp(), ops);
            && s.reserved == (set guid | guid in s.downloads :: DownloadPath(s.downloads[guid]))
            && (forall g, h :: g in s.downloads && h in s.downloads && g != h ==>
               DownloadPath(s.downloads[g]) != DownloadPath(s.downloads[h]))
            && |s.downloads| <= MAX_DOWNLOADS
            && (s.allows <==> s.grant.Some? || s.downloads != map[])
  {
    SetUpHolds();
    RunKeepsInv(AfterSetUp(), ops);
  }

  /** In every run the statuses recorded for a download are Started, then any that do not end it,
      then at most one that does, and nothing after; it is in flight exactly in between. A finished
      file is held back only while its save prompt is open. */
  lemma HistoriesAreOrderly(ops: seq<Op>, guid: Guid)
    requires IsRun(AfterSetUp(), ops)
    ensures var s := After(AfterSetUp(), ops);
            && IsHistory(Statuses(s.log, guid))
            && (guid in s.downloads <==> IsGoingOn(Statuses(s.log, guid)))
            && (guid in s.downloads && s.downloads[guid].completedSource.Some? ==>
                s.downloads[guid].savePromptPending && s.downloads[guid].destination.None? && !s.downloads[guid].paused)
  {
    SetUpHolds();
    RunKeepsInv(AfterSetUp(), ops);
    var s := After(AfterSetUp(), ops);
    assert PhaseOf(s.log, guid) != Broken;
    PhaseMeans(s.log, guid);
  }

  // ----- where downloads come from, and how they end -----

  predicate IsFrom(d: Download, context: string, directory: Path, source: Source) {
    && d.context == context && d.directory == directory
    && (d.userInitiated <==> source.User?)
    && (source.Agent? ==> source.expectedUrl == d.url)
  }

  /** The log holds an approval that `d` can come from. */
  ghost predicate WasApproved(log: seq<Event>, d: Download) {
    exists source :: Granted(d.context, d.directory, source) in log && IsFrom(d, d.context, d.directory, source)
  }

  ghost predicate Approvals(s: State) {
    && (s.grant.Some? ==> GrantEvent(s.grant.value) in s.log)
    && forall guid :: guid in s.downloads ==> WasApproved(s.log, s.downloads[guid])
  }

  predicate SameOrigin(d: Download, e: Download) {
    d.context == e.context && d.directory == e.directory && d.userInitiated == e.userInitiated && d.url == e.url
  }

  predicate SameSource(g: Grant, h: Grant) {
    g.context == h.context && g.directory == h.directory && g.source == h.source
  }

  /** What `t` holds it has from `s`, or from an approval in its log. */
  ghost predicate Descends(s: State, t: State) {
    && s.log <= t.log
    && (t.grant.Some? ==>
          || (s.grant.Some? && SameSource(t.grant.value, s.grant.value))
          || GrantEvent(t.grant.value) in t.log)
    && forall guid :: guid in t.downloads ==>
          || (guid in s.downloads && SameOrigin(s.downloads[guid], t.downloads[guid]))
          || (s.grant.Some?
              && IsFrom(t.downloads[guid], s.grant.value.context, s.grant.value.directory, s.grant.value.source))
  }

  lemma DescentKeepsApprovals(s: State, t: State)
    requires Approvals(s) && Descends(s, t)
    ensures Approvals(t)
  {
    forall guid | guid in t.downloads ensures WasApproved(t.log, t.downloads[guid]) {
      var d := t.downloads[guid];
      if guid in s.downloads && SameOrigin(s.downloads[guid], d) {
        var source :| Granted(d.context, d.directory, source) in s.log
          && IsFrom(s.downloads[guid], d.context, d.directory, source);
        assert Granted(d.context, d.directory, source) in t.log;
      } else {
        assert Granted(d.context, d.directory, s.grant.value.source) in t.log;
      }
    }
  }

  predicate IsGrantOp(op: Op) { op.ExpireOp? || op.RevokeOp? || op.AllowOp? || op.PrepareOp? }

  lemma ExpiryIsSilent(s: State, now: nat)
    ensures var t := Expire(s, now);
            t.downloads == s.downloads && t.log == s.log && (t.grant.None? || t.grant == s.grant)
  {
  }

  /** No download is touched; an approval is the old one, gone, or announced. */
  predicate OnlyGrants(s: State, t: State) {
    && t.downloads == s.downloads
    && (|| (t.log == s.log && (t.grant.Some? ==> s.grant.Some? && SameSource(t.grant.value, s.grant.value)))
        || (t.grant.Some? && t.log == s.log + [GrantEvent(t.grant.value)]))
  }

  lemma AllowOnlyGrants(s: State, context: string, source: Source, frames: set<string>, directory: Path, now: nat)
    requires source.Agent?
    ensures OnlyGrants(s, AllowAgent(s, context, source, frames, directory, now).state)
  {
    ExpiryIsSilent(s, now);
  }

  lemma PrepareOnlyGrants(s: State, context: string, frames: set<string>, directory: Path, now: nat)
    ensures OnlyGrants(s, PrepareUser(s, context, frames, directory, now).state)
  {
    ExpiryIsSilent(s, now);
  }

  // Approvals come and go without a word about any download.
  lemma GrantOpsOnlyGrant(s: State, op: Op)
    requires IsGrantOp(op)
    ensures OnlyGrants(s, Apply(s, op).state)
  {
    match op
    case ExpireOp(now) => ExpiryIsSilent(s, now);
    case AllowOp(context, tab, url, frames, directory, now) =>
      AllowOnlyGrants(s, context, Agent(tab, url), frames, directory, now);
    case PrepareOp(context, frames, directory, now) => PrepareOnlyGrants(s, context, frames, directory, now);
    case _ =>
  }

  lemma ApplyDescends(s: State, op: Op)
    ensures Descends(s, Apply(s, op).state)
  {
    if IsGrantOp(op) {
      GrantOpsOnlyGrant(s, op);
    } else {
      match op
      case BeginOp(b) => WillBeginDescends(s, b);
      case ProgressOp(guid, progress, received, total) => ProgressDescends(s, guid, progress, received, total);
      case DestinationOp(guid, choice, usable, moved) => DestinationDescends(s, guid, choice, usable, moved);
      case CancelOp(guid) => DestinationDescends(s, guid, None, true, true);
      case PauseOp(guid, answer) => PauseDescends(s, guid, answer);
      case ResumeOp(guid, answered) => ResumeDescends(s, guid, answered);
      case _ =>
    }
  }

  lemma BeginDescends(s: State, b: Beginning, path: Path)
    requires Admits(s.grant, b)
    ensures Descends(s, Begin(s, s.grant.value, b, path))
  {
    var t := Begin(s, s.grant.value, b, path);
    forall guid | guid in t.downloads && guid != b.guid
      ensures guid in s.downloads && t.downloads[guid] == s.downloads[guid]
    {
    }
    assert IsFrom(t.downloads[b.guid], s.grant.value.context, s.grant.value.directory, s.grant.value.source);
  }

  lemma WillBeginDescends(s: State, b: Beginning)
    ensures Descends(s, WillBegin(s, b).state)
  {
    if Admits(s.grant, b) && |s.downloads| < MAX_DOWNLOADS {
      var path := FirstFree(b, s.reserved, 0);
      if path.Some? {
        BeginDescends(s, b, path.value);
      }
    }
  }

  lemma UpdateDescends(s: State, t: State, guid: Guid)
    requires guid in s.downloads && guid in t.downloads && SameOrigin(s.downloads[guid], t.downloads[guid])
    requires t.downloads == s.downloads[guid := t.downloads[guid]] && t.grant == s.grant && s.log <= t.log
    ensures Descends(s, t)
  {
  }

  lemma CloseDescends(s: State, t: State, guid: Guid)
    requires t.downloads == s.downloads - {guid} && t.grant == s.grant && s.log <= t.log
    ensures Descends(s, t)
  {
  }

  lemma ProgressDescends(s: State, guid: Guid, progress: Progress, received: nat, total: nat)
    ensures Descends(s, OnProgress(s, guid, progress, received, total).state)
  {
    if guid in s.downloads {
      var t := OnProgress(s, guid, progress, received, total).state;
      if guid in t.downloads {
        UpdateDescends(s, t, guid);
      } else {
        CloseDescends(s, t, guid);
      }
    }
  }

  lemma DestinationDescends(s: State, guid: Guid, choice: Option<Path>, usable: bool, moved: bool)
    ensures Descends(s, SetDestination(s, guid, choice, usable, moved).state)
  {
    var t := SetDestination(s, guid, choice, usable, moved).state;
    if guid in s.downloads {
      if guid in t.downloads {
        UpdateDescends(s, t, guid);
      } else {
        ReplacedAndRemoved(s.downloads, guid, s.downloads[guid], s.downloads[guid]);
        CloseDescends(s, t, guid);
      }
    }
  }

  lemma PauseDescends(s: State, guid: Guid, answer: Option<bool>)
    ensures Descends(s, Pause(s, guid, answer).state)
  {
  }

  lemma ResumeDescends(s: State, guid: Guid, answered: bool)
    ensures Descends(s, Resume(s, guid, answered).state)
  {
  }

  lemma {:induction false} RunKeepsApprovals(s: State, ops: seq<Op>)
    requires Approvals(s)
    ensures Approvals(After(s, ops))
    decreases |ops|
  {
    if ops != [] {
      ApplyDescends(s, ops[0]);
      DescentKeepsApprovals(s, Apply(s, ops[0]).state);
      RunKeepsApprovals(Apply(s, ops[0]).state, ops[1..]);
    }
  }

  /** Every download that began used up an approval of its own, and the pending one is unused.
      What is in flight was approved: in its context, with its staging directory, and by the user
      or, for that very URL, to the agent. */
  lemma EveryDownloadWasApproved(ops: seq<Op>)
    requires IsRun(AfterSetUp(), ops)
    ensures var s := After(AfterSetUp(), ops);
            && Begun(s.log) + (if s.grant.Some? then 1 else 0) <= Grants(s.log)
            && forall guid :: guid in s.downloads ==> WasApproved(s.log, s.downloads[guid])
  {
    SetUpHolds();
    RunKeepsInv(AfterSetUp(), ops);
    RunKeepsApprovals(AfterSetUp(), ops);
  }

  /** The operation told the runtime whether the file of `guid` could be moved. */
  predicate Moves(op: Op, guid: Guid, moved: bool) {
    || (op.ProgressOp? && op.guid == guid && op.progress.CompletedEvent? && op.progress.moved == moved)
    || (op.DestinationOp? && op.guid == guid && op.choice.Some? && op.moved == moved)
  }

  lemma MovedByStep(s: State, op: Op, guid: Guid, moved: bool)
    requires Changed(guid, MoveStatus(moved)) in Apply(s, op).state.log
    ensures Changed(guid, MoveStatus(moved)) in s.log || Moves(op, guid, moved)
  {
    if IsGrantOp(op) {
      GrantOpsOnlyGrant(s, op);
    } else {
      match op
      case ProgressOp(g, progress, received, total) => MovedByProgress(s, g, progress, received, total, guid, moved);
      case DestinationOp(g, choice, usable, m) => MovedByAnswer(s, g, choice, usable, m, guid, moved);
      case CancelOp(g) => MovedByAnswer(s, g, None, true, true, guid, moved);
      case _ => NotMoved(s, op, guid, moved);
    }
  }

  lemma NotMoved(s: State, op: Op, guid: Guid, moved: bool)
    requires op.BeginOp? || op.PauseOp? || op.ResumeOp?
    ensures Changed(guid, MoveStatus(moved)) in Apply(s, op).state.log ==> Changed(guid, MoveStatus(moved)) in s.log
  {
  }

  lemma MovedByProgress(s: State, g: Guid, progress: Progress, received: nat, total: nat, guid: Guid, moved: bool)
    requires Changed(guid, MoveStatus(moved)) in OnProgress(s, g, progress, received, total).state.log
    ensures || Changed(guid, MoveStatus(moved)) in s.log
            || (g == guid && progress.CompletedEvent? && progress.moved == moved)
  {
  }

  lemma MovedByAnswer(s: State, g: Guid, choice: Option<Path>, usable: bool, m: bool, guid: Guid, moved: bool)
    requires Changed(guid, MoveStatus(moved)) in SetDestination(s, g, choice, usable, m).state.log
    ensures Changed(guid, MoveStatus(moved)) in s.log || (g == guid && choice.Some? && m == moved)
  {
  }

  lemma {:induction false} MovedInRun(s: State, ops: seq<Op>, guid: Guid, moved: bool)
    requires Changed(guid, MoveStatus(moved)) in After(s, ops).log
    ensures Changed(guid, MoveStatus(moved)) in s.log || exists i :: 0 <= i < |ops| && Moves(ops[i], guid, moved)
    decreases |ops|
  {
    if ops != [] {
      var t := Apply(s, ops[0]).state;
      MovedInRun(t, ops[1..], guid, moved);
      if Changed(guid, MoveStatus(moved)) in t.log {
        MovedByStep(s, ops[0], guid, moved);
      } else {
        var i :| 0 <= i < |ops[1..]| && Moves(ops[1..][i], guid, moved);
        assert Moves(ops[i + 1], guid, moved);
      }
    }
  }

  /** A download that a run records as complete had its file moved to its destination, and one
      recorded as failed did not: when its transfer completed, or when the user answered. */
  lemma CompletionsAreTrue(ops: seq<Op>, guid: Guid, moved: bool)
    requires Changed(guid, MoveStatus(moved)) in After(AfterSetUp(), ops).log
    ensures exists i :: 0 <= i < |ops| && Moves(ops[i], guid, moved)
  {
    MovedInRun(AfterSetUp(), ops, guid, moved);
  }

  // ----- when the permission is left behind -----

  predicate HasFreeName(b: Beginning, reserved: set<Path>) {
    exists k :: 0 <= k < MAX_FILENAME_ATTEMPTS && IsFree(b, reserved, k)
  }

  /** The approval will be used up, no file name is free, and no other download is in flight. */
  predicate StrandsPermission(s: State, b: Beginning) {
    Admits(s.grant, b) && |s.downloads| < MAX_DOWNLOADS && !HasFreeName(b, s.reserved) && s.downloads == map[]
  }

  /** The start of a download leaves the browser allowing exactly what is needed, and the rest of
      the invariant too, unless an admitted download finds no free file name while nothing else is
      in flight: then the error leaves downloads allowed that nothing needs. */
  lemma FailedReservationLeavesAllowed(s: State, b: Beginning)
    requires Inv(s) && PhaseOf(s.log, b.guid) == Unseen
    ensures AllowsWhatIsNeeded(WillBegin(s, b).state) <==> !StrandsPermission(s, b)
    ensures Inv(WillBegin(s, b).state) <==> !StrandsPermission(s, b)
  {
    if Admits(s.grant, b) && |s.downloads| < MAX_DOWNLOADS && !HasFreeName(b, s.reserved) {
      assert WillBegin(s, b).state == s.(grant := None);
    } else {
      WillBeginKeeps(s, b);
    }
  }

  function UserGranted(context: string, frame: string, staging: Path): seq<Op> {
    [PrepareOp(context, {frame}, staging, 0)]
  }

  lemma UserGrantedState(context: string, frame: string, staging: Path)
    ensures var ops := UserGranted(context, frame, staging);
            && IsRun(AfterSetUp(), ops)
            && After(AfterSetUp(), ops) == Approve(AfterSetUp(), Grant(context, staging, GRANT_TIMEOUT, {frame}, User))
  {
    var ops := UserGranted(context, frame, staging);
    assert ops[1..] == [];
    assert frame in {frame};
  }

  /** The run that shows it: the user is granted a download, and every name to try is on disk. */
  lemma StrandedAfterOneGrant(context: string, frame: string, staging: Path, guid: Guid, url: string,
                              names: nat -> Path)
    ensures var s := After(AfterSetUp(), UserGranted(context, frame, staging));
            var b := Beginning(guid, url, frame, names, path => true, false);
            var t := WillBegin(s, b).state;
            && IsRun(AfterSetUp(), UserGranted(context, frame, staging)) && UsesFreshGuid(s, BeginOp(b))
            && StrandsPermission(s, b) && t.allows && !IsNeeded(t)
  {
    UserGrantedState(context, frame, staging);
    var s := After(AfterSetUp(), UserGranted(context, frame, staging));
    var b := Beginning(guid, url, frame, names, path => true, false);
    assert FirstFree(b, s.reserved, 0).None?;
  }

  // ----- what single operations achieve -----

  /** In every run a download begins only on an approval for its frame and, if the agent asked for it, its URL;
      its file name was free, and it waits for the user's answer exactly if the user began it and
      wants to be asked. */
  lemma OnlyApprovedDownloadsBegin(ops: seq<Op>, b: Beginning)
    requires IsRun(AfterSetUp(), ops) && UsesFreshGuid(After(AfterSetUp(), ops), BeginOp(b))
    requires b.guid in WillBegin(After(AfterSetUp(), ops), b).state.downloads
    ensures var s := After(AfterSetUp(), ops);
            var t := WillBegin(s, b).state;
            var d := t.downloads[b.guid];
            && s.grant.Some? && t.grant.None?
            && b.frame in s.grant.value.frames
            && (d.userInitiated <==> s.grant.value.source.User?)
            && (!d.userInitiated ==> s.grant.value.source.expectedUrl == b.url == d.url)
            && !b.onDisk(d.defaultDestination) && d.defaultDestination !in s.reserved
            && (d.savePromptPending <==> d.userInitiated && b.prompt)
            && (d.destination == if d.savePromptPending then None else Some(d.defaultDestination))
            && t.downloads - {b.guid} == s.downloads
  {
    SetUpHolds();
    RunKeepsInv(AfterSetUp(), ops);
    var s := After(AfterSetUp(), ops);
    assert b.guid !in s.downloads;
    assert WillBegin(s, b).state.downloads - {b.guid} == s.downloads;
  }

  /** The event that the recorded log ends with. */
  function LastEvent(s: State): Option<Event> {
    if s.log == [] then None else Some(s.log[|s.log| - 1])
  }

  /** The download `guid` is over: recorded as such, its path free, all others untouched. */
  ghost predicate IsOver(s: State, t: State, guid: Guid, status: Status)
    requires guid in s.downloads
  {
    && LastEvent(t) == Some(Changed(guid, status))
    && t.downloads == s.downloads - {guid}
    && t.reserved == s.reserved - {DownloadPath(s.downloads[guid])}
  }

  /** In every run a completed transfer is over once its destination is known, complete iff the file could be
      moved there, canceled if the prompt was declined; while the prompt is open the file waits. */
  lemma CompletionIsReported(ops: seq<Op>, guid: Guid, source: Path, moved: bool, received: nat, total: nat)
    requires IsRun(AfterSetUp(), ops) && guid in After(AfterSetUp(), ops).downloads
    ensures var s := After(AfterSetUp(), ops);
            var d := s.downloads[guid];
            var t := OnProgress(s, guid, CompletedEvent(source, moved), received, total).state;
            && (d.destination.Some? ==> IsOver(s, t, guid, if moved then Complete else Failed))
            && (d.destination.None? && !d.savePromptPending ==> IsOver(s, t, guid, Canceled))
            && (d.destination.None? && d.savePromptPending ==>
                guid in t.downloads && t.downloads[guid].completedSource == Some(source) && t.reserved == s.reserved)
  {
    SetUpHolds();
    RunKeepsInv(AfterSetUp(), ops);
    var s := After(AfterSetUp(), ops);
    assert Sane(s.downloads[guid]);
  }

  /** The prompt of `guid` can be answered with `path`. */
  predicate Answerable(s: State, guid: Guid, path: Path) {
    && guid in s.downloads && s.downloads[guid].savePromptPending
    && (path == s.downloads[guid].defaultDestination || path !in s.reserved)
  }

  /** What is left when the prompted download `guid` is over, but for the history. */
  function Left(s: State, guid: Guid): State
    requires guid in s.downloads
  {
    DenyIfUnused(
      s.(downloads := s.downloads - {guid}, reserved := s.reserved - {s.downloads[guid].defaultDestination}, log := []))
  }

  lemma PathTakenAndFreed(s: State, guid: Guid, path: Path)
    requires Inv(s) && Answerable(s, guid, path)
    ensures s.reserved - {s.downloads[guid].defaultDestination} + {path} - {path} ==
            s.reserved - {s.downloads[guid].defaultDestination}
  {
  }

  lemma ReplacedAndRemoved(downloads: map<Guid, Download>, guid: Guid, d: Download, e: Download)
    ensures downloads[guid := d][guid := e] == downloads[guid := e]
    ensures downloads[guid := d] - {guid} == downloads - {guid}
  {
  }

  lemma CompletedThenAnswered(s: State, guid: Guid, path: Path, source: Path, m: bool, moved: bool, received: nat,
                              total: nat)
    requires Inv(s) && Answerable(s, guid, path)
    ensures var waiting := OnProgress(s, guid, CompletedEvent(source, m), received, total).state;
            var t := SetDestination(waiting, guid, Some(path), true, moved);
            t.error.None? && t.state.(log := []) == Left(s, guid)
              && LastEvent(t.state) == Some(Changed(guid, MoveStatus(moved)))
  {
    var waiting := OnProgress(s, guid, CompletedEvent(source, m), received, total).state;
    var redirected := Redirect(waiting, guid, path);
    ReplacedAndRemoved(s.downloads, guid, waiting.downloads[guid], redirected.downloads[guid]);
    ReplacedAndRemoved(s.downloads, guid, redirected.downloads[guid], redirected.downloads[guid]);
    PathTakenAndFreed(s, guid, path);
    assert SetDestination(waiting, guid, Some(path), true, moved) == Done(Close(redirected, guid, MoveStatus(moved)));
  }

  lemma AnsweredIs(s: State, guid: Guid, path: Path, moved: bool)
    requires Inv(s) && Answerable(s, guid, path) && s.downloads[guid].completedSource.None?
    ensures var answered := SetDestination(s, guid, Some(path), true, moved);
            answered.error.None? && answered.state.(log := s.log) == Redirect(s, guid, path)
  {
    var redirected := Redirect(s, guid, path);
    ReplacedAndRemoved(s.downloads, guid, redirected.downloads[guid], redirected.downloads[guid]);
  }

  lemma CompletedIs(s: State, guid: Guid, source: Path, moved: bool, received: nat, total: nat)
    requires guid in s.downloads && s.downloads[guid].destination.Some?
    ensures OnProgress(s, guid, CompletedEvent(source, moved), received, total) ==
            Done(Close(s, guid, MoveStatus(moved)))
  {
  }

  lemma RedirectedLeaves(s: State, t: State, guid: Guid, path: Path, status: Status)
    requires Inv(s) && Answerable(s, guid, path) && guid in t.downloads && t.(log := s.log) == Redirect(s, guid, path)
    ensures Close(t, guid, status).(log := []) == Left(s, guid)
    ensures LastEvent(Close(t, guid, status)) == Some(Changed(guid, status))
  {
    ReplacedAndRemoved(s.downloads, guid, t.downloads[guid], t.downloads[guid]);
    PathTakenAndFreed(s, guid, path);
  }

  lemma AnsweredThenCompleted(s: State, guid: Guid, path: Path, source: Path, m: bool, moved: bool, received: nat,
                              total: nat)
    requires Inv(s) && Answerable(s, guid, path) && s.downloads[guid].completedSource.None?
    ensures var chosen := SetDestination(s, guid, Some(path), true, m);
            var t := OnProgress(chosen.state, guid, CompletedEvent(source, moved), received, total).state;
            chosen.error.None? && t.(log := []) == Left(s, guid)
              && LastEvent(t) == Some(Changed(guid, MoveStatus(moved)))
  {
    AnsweredIs(s, guid, path, m);
    var chosen := SetDestination(s, guid, Some(path), true, m).state;
    CompletedIs(chosen, guid, source, moved, received, total);
    RedirectedLeaves(s, chosen, guid, path, MoveStatus(moved));
  }

  /** Whether the user answers the prompt before or after the transfer completes makes no
      difference to what is left and how the download ends. */
  lemma AnswerAndCompletionCommute(s: State, guid: Guid, path: Path, source: Path, moved: bool, other: bool,
                                   received: nat, total: nat)
    requires Inv(s) && Answerable(s, guid, path) && s.downloads[guid].completedSource.None?
    ensures var waiting := OnProgress(s, guid, CompletedEvent(source, other), received, total).state;
            var first := SetDestination(waiting, guid, Some(path), true, moved);
            var chosen := SetDestination(s, guid, Some(path), true, other).state;
            var second := OnProgress(chosen, guid, CompletedEvent(source, moved), received, total);
            && first.error.None? && first.state.(log := []) == second.state.(log := [])
            && LastEvent(first.state) == LastEvent(second.state) == Some(Changed(guid, MoveStatus(moved)))
            && guid !in first.state.downloads && path !in first.state.reserved
  {
    CompletedThenAnswered(s, guid, path, source, other, moved, received, total);
    AnsweredThenCompleted(s, guid, path, source, other, moved, received, total);
  }

  /** Resuming undoes pausing, but for the two entries in the history. */
  lemma ResumeUndoesPause(s: State, guid: Guid)
    requires Inv(s) && guid in s.downloads && Pause(s, guid, Some(true)).error.None?
    ensures var resumed := Resume(Pause(s, guid, Some(true)).state, guid, true);
            && resumed.error.None? && resumed.state.(log := s.log) == s
            && resumed.state.log == s.log + [Changed(guid, Paused), Changed(guid, InProgress)]
  {
    var d := s.downloads[guid];
    assert Sane(d);
    assert s.downloads[guid := d.(paused := true, canResume := true)][guid := d] == s.downloads;
  }
}
