/** Downloads of the Browser: approvals, downloads in flight and the paths they reserve
    (crates/codex-platform/src/browser.rs, the download methods of `BrowserRuntime`).

    Every operation is a function of the state, which the class at the end carries out field by
    field. Requests to the browser succeed; what the file system answers is a parameter. */
module Downloads {

  import opened Wrappers

  const MAX_DOWNLOADS: nat := 16
  const MAX_FILENAME_ATTEMPTS: nat := 10_000
  const GRANT_TIMEOUT: nat := 10_000

  type Guid = string
  type Path = string

  datatype Status = Started | InProgress | Paused | Complete | Failed | Canceled

  predicate IsTerminal(status: Status) { status.Complete? || status.Failed? || status.Canceled? }

  datatype Source = Agent(tab: nat, expectedUrl: string) | User

  datatype Grant = Grant(context: string, directory: Path, expiresAt: nat, frames: set<string>, source: Source)

  datatype Download = Download(
    userInitiated: bool,
    context: string,
    url: string,
    directory: Path,
    defaultDestination: Path,
    destination: Option<Path>,
    overwrite: bool,
    savePromptPending: bool,
    completedSource: Option<Path>,
    paused: bool,
    canResume: bool,
    received: nat,
    total: nat)

  /** What the outside sees, in order: approvals, changes of a download, refusals. */
  datatype Event =
    | Granted(context: string, directory: Path, source: Source)
    | Changed(guid: Guid, status: Status)
    | CancelRequested(guid: Guid)
    | LimitReached

  datatype Error =
    | StillPending | NoFrame | NotActive | NotWaiting | PathUnavailable | AlreadyReserved
    | NotPausable | NotResumable | TransferFailed
    | NoUniqueFilename // raised while an event is handled, which ends the session

  /** `behavior` is the setting the runtime remembers, `allows` the one the browser has. */
  datatype State = State(
    downloads: map<Guid, Download>,
    reserved: set<Path>,
    grant: Option<Grant>,
    behavior: Option<bool>,
    allows: bool,
    log: seq<Event>)

  function AfterSetUp(): State { State(map[], {}, None, Some(false), false, []) }

  datatype Outcome = Outcome(state: State, error: Option<Error>)

  function Done(s: State): Outcome { Outcome(s, None) }
  function Rejected(s: State, e: Error): Outcome { Outcome(s, Some(e)) }

  function DownloadPath(d: Download): Path {
    match d.destination case Some(path) => path case None => d.defaultDestination
  }

  function Record(s: State, e: Event): State { s.(log := s.log + [e]) }

  function Allow(s: State): State { s.(behavior := Some(true), allows := true) }

  function Deny(s: State): State {
    if s.behavior == Some(false) then s else s.(behavior := Some(false), allows := false)
  }

  function DenyIfUnused(s: State): State {
    if s.grant.None? && s.downloads == map[] then Deny(s) else s
  }

  // ----- approvals -----

  function Expire(s: State, now: nat): State {
    if s.grant.Some? && now >= s.grant.value.expiresAt then DenyIfUnused(s.(grant := None)) else s
  }

  function IsForTab(grant: Option<Grant>, tab: nat): bool {
    grant.Some? && grant.value.source.Agent? && grant.value.source.tab == tab
  }

  function RevokeForTab(s: State, tab: nat): State {
    if IsForTab(s.grant, tab) then DenyIfUnused(s.(grant := None)) else s
  }

  function GrantEvent(grant: Grant): Event { Granted(grant.context, grant.directory, grant.source) }

  function Approve(s: State, grant: Grant): State {
    Record(Allow(s), GrantEvent(grant)).(grant := Some(grant))
  }

  function AllowAgent(s: State, context: string, source: Source, frames: set<string>, directory: Path,
                      now: nat): Outcome
    requires source.Agent?
  {
    var s := Expire(s, now);
    if s.grant.Some? then
      if s.grant.value.context == context && s.grant.value.source == source then Done(s) else Rejected(s, StillPending)
    else if frames == {} then Rejected(s, NoFrame)
    else Done(Approve(s, Grant(context, directory, now + GRANT_TIMEOUT, frames, source)))
  }

  function PrepareUser(s: State, context: string, frames: set<string>, directory: Path, now: nat): Outcome {
    var s := Expire(s, now);
    if s.grant.Some? then
      if s.grant.value.context == context && s.grant.value.source.User?
      then Done(s.(grant := Some(s.grant.value.(expiresAt := now + GRANT_TIMEOUT))))
      else Done(s)
    else if frames == {} then Done(s)
    else Done(Approve(s, Grant(context, directory, now + GRANT_TIMEOUT, frames, User)))
  }

  // ----- the start of a download -----

  /** `names(k)` is the k-th file name to try, `onDisk` what the file system says of it. */
  datatype Beginning = Beginning(
    guid: Guid, url: string, frame: string, names: nat -> Path, onDisk: Path -> bool, prompt: bool)

  function Admits(grant: Option<Grant>, b: Beginning): bool {
    && grant.Some? && b.frame in grant.value.frames
    && (grant.value.source.Agent? ==> grant.value.source.expectedUrl == b.url)
  }

  function IsFree(b: Beginning, reserved: set<Path>, k: nat): bool {
    !b.onDisk(b.names(k)) && b.names(k) !in reserved
  }

  function FirstFree(b: Beginning, reserved: set<Path>, from: nat): (path: Option<Path>)
    ensures path.Some? ==> path.value !in reserved && !b.onDisk(path.value)
    ensures path.None? <==> forall k :: from <= k < MAX_FILENAME_ATTEMPTS ==> !IsFree(b, reserved, k)
    decreases MAX_FILENAME_ATTEMPTS - from
  {
    if from >= MAX_FILENAME_ATTEMPTS then None
    else if IsFree(b, reserved, from) then Some(b.names(from))
    else FirstFree(b, reserved, from + 1)
  }

  function NewDownload(grant: Grant, b: Beginning, path: Path): Download {
    var asks := grant.source.User? && b.prompt;
    Download(grant.source.User?, grant.context, b.url, grant.directory, path,
      if asks then None else Some(path), false, asks, None, false, false, 0, 0)
  }

  function Begin(s: State, grant: Grant, b: Beginning, path: Path): State {
    var downloads := s.downloads[b.guid := NewDownload(grant, b, path)];
    Record(s.(grant := None, reserved := s.reserved + {path}, downloads := downloads), Changed(b.guid, Started))
  }

  /** An approval is used up by the download it admits, even one that the limit then refuses. */
  function WillBegin(s: State, b: Beginning): Outcome {
    if !Admits(s.grant, b) then Done(Record(s, CancelRequested(b.guid)))
    else if |s.downloads| >= MAX_DOWNLOADS then
      Done(DenyIfUnused(Record(Record(s.(grant := None), CancelRequested(b.guid)), LimitReached)))
    else
      match FirstFree(b, s.reserved, 0)
      case None => Rejected(s.(grant := None), NoUniqueFilename)
      case Some(path) => Done(Begin(s, s.grant.value, b, path))
  }

  // ----- its course -----

  /** The download goes on, with a status that does not end it. */
  function Update(s: State, guid: Guid, d: Download, status: Status): State {
    Record(s.(downloads := s.downloads[guid := d]), Changed(guid, status))
  }

  /** The download ends: its path is free again, and the browser stops allowing downloads if
      nothing needs it to. */
  function Close(s: State, guid: Guid, status: Status): State
    requires guid in s.downloads
  {
    DenyIfUnused(Record(
      s.(downloads := s.downloads - {guid}, reserved := s.reserved - {DownloadPath(s.downloads[guid])}),
      Changed(guid, status)))
  }

  function MoveStatus(moved: bool): Status { if moved then Complete else Failed }

  datatype Progress = InProgressEvent | CompletedEvent(source: Path, moved: bool) | CanceledEvent | OtherEvent

  function OnProgress(s: State, guid: Guid, progress: Progress, received: nat, total: nat): Outcome {
    if guid !in s.downloads then
      Done(if progress.InProgressEvent? then Record(s, CancelRequested(guid)) else s)
    else
      var d := s.downloads[guid].(received := received, total := total);
      match progress
      case InProgressEvent => Done(Update(s, guid, d, if d.paused then Paused else InProgress))
      case CompletedEvent(source, moved) =>
        if d.savePromptPending && d.destination.None? then
          Done(Update(s, guid, d.(paused := false, canResume := false, completedSource := Some(source)), InProgress))
        else Done(Close(s, guid, if d.destination.Some? then MoveStatus(moved) else Canceled))
      case CanceledEvent => Done(Close(s, guid, Canceled))
      case OtherEvent => Done(s)
  }

  /** The user's answer to the save prompt; `usable` says whether the path can be written, `moved`
      whether a finished download could be moved there. */
  function SetDestination(s: State, guid: Guid, choice: Option<Path>, usable: bool, moved: bool): Outcome {
    if choice.Some? && !usable then Rejected(s, PathUnavailable)
    else if guid !in s.downloads then Rejected(s, NotActive)
    else
      var d := s.downloads[guid];
      if !d.userInitiated || !d.savePromptPending then Rejected(s, NotWaiting)
      else if choice.None? then
        if d.completedSource.Some? then Done(Close(s, guid, Canceled))
        else Done(Record(s.(downloads := s.downloads[guid := d.(savePromptPending := false)]), CancelRequested(guid)))
      else if choice.value != d.defaultDestination && choice.value in s.reserved then Rejected(s, AlreadyReserved)
      else
        var redirected := Redirect(s, guid, choice.value);
        if d.completedSource.Some? then Done(Close(redirected, guid, MoveStatus(moved)))
        else Done(Update(redirected, guid, redirected.downloads[guid],
          if d.paused then Paused else if d.received == 0 then Started else InProgress))
  }

  function Redirect(s: State, guid: Guid, path: Path): State
    requires guid in s.downloads
  {
    var d := s.downloads[guid];
    var redirected :=
      d.(destination := Some(path), savePromptPending := false, overwrite := true, completedSource := None);
    s.(reserved := s.reserved - {d.defaultDestination} + {path}, downloads := s.downloads[guid := redirected])
  }

  function Cancel(s: State, guid: Guid): Outcome {
    if guid !in s.downloads then Rejected(s, NotActive)
    else
      var d := s.downloads[guid];
      if d.userInitiated && d.savePromptPending && d.destination.None? then SetDestination(s, guid, None, true, true)
      else Done(Record(s, CancelRequested(guid)))
  }

  /** `answer` is what the transfer control said: whether it can be resumed, or that it failed. */
  function Pause(s: State, guid: Guid, answer: Option<bool>): Outcome {
    if guid !in s.downloads then Rejected(s, NotActive)
    else
      var d := s.downloads[guid];
      if d.paused || d.completedSource.Some? then Rejected(s, NotPausable)
      else if answer.None? then Rejected(s, TransferFailed)
      else Done(Update(s, guid, d.(paused := true, canResume := answer.value), Paused))
  }

  function Resume(s: State, guid: Guid, answered: bool): Outcome {
    if guid !in s.downloads then Rejected(s, NotActive)
    else
      var d := s.downloads[guid];
      if !d.paused || !d.canResume then Rejected(s, NotResumable)
      else if !answered then Rejected(s, TransferFailed)
      else Done(Update(s, guid, d.(paused := false, canResume := false), InProgress))
  }

  // ----- the runtime -----

  class DownloadRuntime {
    var downloads: map<Guid, Download>
    var reserved: set<Path>
    var pendingGrant: Option<Grant>
    var behaviorEnabled: Option<bool>
    ghost var allows: bool
    ghost var log: seq<Event>

    ghost function Now(): State
      reads this
    {
      State(downloads, reserved, pendingGrant, behaviorEnabled, allows, log)
    }

    /** Whatever the browser allowed before, it denies downloads once it is set up. */
    constructor (ghost allowedBefore: bool)
      ensures Now() == AfterSetUp()
    {
      downloads, reserved, pendingGrant, behaviorEnabled := map[], {}, None, None;
      allows, log := allowedBefore, [];
      new;
      SetDownloadBehavior(false);
    }

    method SetDownloadBehavior(enabled: bool)
      modifies this
      ensures Now() == if enabled then Allow(old(Now())) else Deny(old(Now()))
    {
      if !enabled && behaviorEnabled == Some(false) {
        return;
      }
      allows := enabled;
      behaviorEnabled := Some(enabled);
    }

    method DenyUnlessUsed()
      modifies this
      ensures Now() == DenyIfUnused(old(Now()))
    {
      if pendingGrant.None? && |downloads| == 0 {
        SetDownloadBehavior(false);
      }
    }

    ghost method Emit(e: Event)
      modifies this`log
      ensures log == old(log) + [e]
    {
      log := log + [e];
    }

    method ExpireDownloadGrant(now: nat)
      modifies this
      ensures Now() == Expire(old(Now()), now)
    {
      if pendingGrant.Some? && now >= pendingGrant.value.expiresAt {
        pendingGrant := None;
        DenyUnlessUsed();
      }
    }

    method RevokeDownloadGrantForTab(tab: nat)
      modifies this
      ensures Now() == RevokeForTab(old(Now()), tab)
    {
      if IsForTab(pendingGrant, tab) {
        pendingGrant := None;
        DenyUnlessUsed();
      }
    }

    method AgentAllowDownload(context: string, source: Source, frames: set<string>, directory: Path, now: nat)
      returns (error: Option<Error>)
      requires source.Agent?
      modifies this
      ensures Outcome(Now(), error) == AllowAgent(old(Now()), context, source, frames, directory, now)
    {
      ExpireDownloadGrant(now);
      if pendingGrant.Some? {
        if pendingGrant.value.context == context && pendingGrant.value.source == source {
          return None;
        }
        return Some(StillPending);
      }
      if frames == {} {
        return Some(NoFrame);
      }
      SetDownloadBehavior(true);
      pendingGrant := Some(Grant(context, directory, now + GRANT_TIMEOUT, frames, source));
      Emit(GrantEvent(pendingGrant.value));
      error := None;
    }

    method PrepareUserDownloadGrant(context: string, frames: set<string>, directory: Path, now: nat)
      modifies this
      ensures Done(Now()) == PrepareUser(old(Now()), context, frames, directory, now)
    {
      ExpireDownloadGrant(now);
      if pendingGrant.Some? {
        if pendingGrant.value.context == context && pendingGrant.value.source.User? {
          pendingGrant := Some(pendingGrant.value.(expiresAt := now + GRANT_TIMEOUT));
        }
        return;
      }
      if frames == {} {
        return;
      }
      SetDownloadBehavior(true);
      pendingGrant := Some(Grant(context, directory, now + GRANT_TIMEOUT, frames, User));
      Emit(GrantEvent(pendingGrant.value));
    }

    method ReserveDownloadPath(b: Beginning) returns (path: Option<Path>)
      modifies this`reserved
      ensures path == FirstFree(b, old(reserved), 0)
      ensures reserved == if path.Some? then old(reserved) + {path.value} else old(reserved)
    {
      for k := 0 to MAX_FILENAME_ATTEMPTS
        invariant reserved == old(reserved)
        invariant FirstFree(b, reserved, 0) == FirstFree(b, reserved, k)
      {
        var candidate := b.names(k);
        if !b.onDisk(candidate) && candidate !in reserved {
          reserved := reserved + {candidate};
          return Some(candidate);
        }
      }
      path := None;
    }

    method HandleDownloadWillBegin(b: Beginning) returns (error: Option<Error>)
      modifies this
      ensures Outcome(Now(), error) == WillBegin(old(Now()), b)
    {
      if !Admits(pendingGrant, b) {
        Emit(CancelRequested(b.guid));
        return None;
      }
      var grant := pendingGrant.value;
      pendingGrant := None;
      if |downloads| >= MAX_DOWNLOADS {
        Emit(CancelRequested(b.guid));
        Emit(LimitReached);
        DenyUnlessUsed();
        return None;
      }
      var path := ReserveDownloadPath(b);
      if path.None? {
        return Some(NoUniqueFilename);
      }
      downloads := downloads[b.guid := NewDownload(grant, b, path.value)];
      Emit(Changed(b.guid, Started));
      error := None;
    }

    /** The common end of a download. */
    method FinishDownload(guid: Guid, status: Status)
      requires guid in downloads
      modifies this
      ensures Now() == Close(old(Now()), guid, status)
    {
      var download := downloads[guid];
      downloads := downloads - {guid};
      reserved := reserved - {DownloadPath(download)};
      Emit(Changed(guid, status));
      DenyUnlessUsed();
    }

    method HandleDownloadProgress(guid: Guid, progress: Progress, received: nat, total: nat)
      modifies this
      ensures Done(Now()) == OnProgress(old(Now()), guid, progress, received, total)
    {
      if guid !in downloads {
        if progress.InProgressEvent? {
          Emit(CancelRequested(guid));
        }
        return;
      }
      var download := downloads[guid].(received := received, total := total);
      match progress
      case InProgressEvent =>
        downloads := downloads[guid := download];
        Emit(Changed(guid, if download.paused then Paused else InProgress));
      case CompletedEvent(source, moved) =>
        if download.savePromptPending && download.destination.None? {
          downloads := downloads[guid :=
            download.(paused := false, canResume := false, completedSource := Some(source))];
          Emit(Changed(guid, InProgress));
        } else if download.destination.Some? {
          FinishDownload(guid, MoveStatus(moved));
        } else {
          FinishDownload(guid, Canceled);
        }
      case CanceledEvent =>
        FinishDownload(guid, Canceled);
      case OtherEvent =>
    }

    method SetDownloadDestination(guid: Guid, choice: Option<Path>, usable: bool, moved: bool)
      returns (error: Option<Error>)
      modifies this
      ensures Outcome(Now(), error) == SetDestination(old(Now()), guid, choice, usable, moved)
    {
      if choice.Some? && !usable {
        return Some(PathUnavailable);
      }
      if guid !in downloads {
        return Some(NotActive);
      }
      var download := downloads[guid];
      if !download.userInitiated || !download.savePromptPending {
        return Some(NotWaiting);
      }
      if choice.None? {
        if download.completedSource.Some? {
          FinishDownload(guid, Canceled);
        } else {
          downloads := downloads[guid := download.(savePromptPending := false)];
          Emit(CancelRequested(guid));
        }
        return None;
      }
      var path := choice.value;
      if path != download.defaultDestination && path in reserved {
        return Some(AlreadyReserved);
      }
      reserved := reserved - {download.defaultDestination};
      reserved := reserved + {path};
      var redirected :=
        download.(destination := Some(path), savePromptPending := false, overwrite := true, completedSource := None);
      downloads := downloads[guid := redirected];
      if download.completedSource.Some? {
        FinishDownload(guid, MoveStatus(moved));
      } else {
        Emit(Changed(guid, if download.paused then Paused else if download.received == 0 then Started else InProgress));
      }
      error := None;
    }

    method CancelDownload(guid: Guid) returns (error: Option<Error>)
      modifies this
      ensures Outcome(Now(), error) == Cancel(old(Now()), guid)
    {
      if guid in downloads && downloads[guid].userInitiated && downloads[guid].savePromptPending
        && downloads[guid].destination.None? {
        error := SetDownloadDestination(guid, None, true, true);
        return;
      }
      if guid !in downloads {
        return Some(NotActive);
      }
      Emit(CancelRequested(guid));
      error := None;
    }

    method PauseDownload(guid: Guid, answer: Option<bool>) returns (error: Option<Error>)
      modifies this
      ensures Outcome(Now(), error) == Pause(old(Now()), guid, answer)
    {
      if guid !in downloads {
        return Some(NotActive);
      }
      var download := downloads[guid];
      if download.paused || download.completedSource.Some? {
        return Some(NotPausable);
      }
      if answer.None? {
        return Some(TransferFailed);
      }
      downloads := downloads[guid := download.(paused := true, canResume := answer.value)];
      Emit(Changed(guid, Paused));
      error := None;
    }

    method ResumeDownload(guid: Guid, answered: bool) returns (error: Option<Error>)
      modifies this
      ensures Outcome(Now(), error) == Resume(old(Now()), guid, answered)
    {
      if guid !in downloads {
        return Some(NotActive);
      }
      var download := downloads[guid];
      if !download.paused || !download.canResume {
        return Some(NotResumable);
      }
      if !answered {
        return Some(TransferFailed);
      }
      downloads := downloads[guid := download.(paused := false, canResume := false)];
      Emit(Changed(guid, InProgress));
      error := None;
    }
  }
}
