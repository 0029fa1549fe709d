# Codex desktop: verified model of the platform supervisor

The platform crate supervises other programs on behalf of the desktop app: the app-server child
process, the agent's browser, git, and the Computer Use helper. Most of it is operating-system
glue. This project models the parts that keep state across calls or take byte streams apart, and
proves what they are for.

| files | what they model |
|---|---|
| `RouterCore`, `RouterSystem`, `RouterSafety`, `RouterDelivery`, `RouterReplies`, `ByteBudget` | the app-server connection: child process, stdout reader thread, router thread, callers and UI over bounded queues, a byte budget and drop counters |
| `Downloads`, `DownloadRuns`, `DownloadEffects` | approvals, downloads in flight and the paths they reserve |
| `Tabs`, `TabRuns`, `TabTurns`, `TabEffects`, `TabCommands` | tabs, contexts, viewports, the screencast, and the end of an agent's turn |
| `ChildSessions` | the forest of child debugger sessions and its breadth-first removal |
| `Wildcard` | the greedy matcher of site-permission patterns |
| `FrameCodec` | length-prefixed frames: reassembly, and the client's write queue |
| `LineReader` | the bounded line reader with resynchronisation |
| `GitStatus` | the parser of `git status --porcelain=v2 -z` |
| `Utf8`, `GitDiff`, `CommitContext` | text cut between characters, diffs of untracked files, the context of a commit message |
| `StaleWindows` | the set of stale windows that turns round on overflow |
| `EscapeMonitor` | the generation-guarded Escape monitor |
| `Wrappers`, `Numbers`, `Sequences`, `Bytes`, `ByteText` | shared types, folds over sequences, lines and fields in bytes |

Each component has the same build. A datatype holds the state and functions say what each
operation does to it; a class with the source's fields carries the operations out step by step,
and its methods are proved to compute those functions; lemmas about the functions then state the
properties, over every run or every input.

Processes, sockets, the clock, the file system, JSON, the browser's debugging protocol and the UI
are parameters: an operation takes their answers as arguments, and a run may choose them freely.

Where the code does not do what one would expect, the model follows the code:

- A diff of an untracked file drops the carriage return of every CR LF without being flagged. It
  reconstructs the file exactly when the file holds no CR LF (`GitDiff.UnflaggedDiffReconstructs`,
  `GitDiff.CrLfIsLost`).
- The Escape monitor starts with `u64::MAX` as the generation it observed. With 2^64 - 1
  generation changes before its first sample a key held down interrupts
  (`EscapeMonitor.HeldKeyInterrupts`); with fewer than 2^64 changes in all no run misbehaves
  (`EscapeMonitor.JustifiedIffBelowWrap`).
- One tick of reading a bridge client refuses a buffer of more than one maximal frame before it
  decodes any, so a legal stream is refused when the chunk that completes a maximal frame carries
  a byte of the next one (`FrameCodec.LegalStreamIsRefused`). It refuses exactly when buffer and
  chunks together exceed one maximal frame (`FrameCodec.FillAcceptsWhatFits`).
- Closing an inactive tab of the active context makes the context remember its first tab instead of
  the active one, so leaving the context and coming back may show another tab: exactly when a tab of
  the context other than the closed one comes before the active one (`TabTurns.CloseLeaveComeBack`,
  `TabCommands.AnotherTabAfterComingBack`).
- When no free file name is left, the error ends the session with the approval gone. If no other
  download is in flight the browser then allows downloads that nothing needs, and only then
  (`DownloadRuns.FailedReservationLeavesAllowed`, `DownloadRuns.StrandedAfterOneGrant`).
- A commit-message context can be flagged although all of it would fit, and even although nothing
  is missing from it, as when it is exactly full and an untracked file that is not text comes up
  (`CommitContext.FlaggedAlthoughWhole`). When a context that would fit is flagged is stated exactly
  (`CommitContext.FlaggedAlthoughItFits`).

`dafny verify dfyconfig.toml` checks the whole project.

## Model

| member | source | states |
|---|---|---|
| `RouterSafety.EveryRequestAnsweredOnce` | crates/codex-platform/src/app_server.rs:1907-1989 | In every run each request the router took is either pending without a reply or not pending with exactly one reply; at most the cap are pending, none once the router stopped; a request not taken has no reply |
| `RouterSafety.ReplyIsFinal` | crates/codex-platform/src/app_server.rs:2004-2025 | A reply never changes afterwards: a response that arrives after its request timed out answers nothing, now or later |
| `RouterDelivery.LateResponsesChangeNothing` | crates/codex-platform/src/app_server.rs:2009-2013 | In every run, handling a response to a request that was already answered changes nothing of the router |
| `RouterSafety.RepliesAreTheServers` | crates/codex-platform/src/app_server.rs:2004-2025 | A successful or failed reply is the content of a response the server sent with that very id |
| `RouterSafety.UiSeesSemanticPrefix` | crates/codex-platform/src/app_server.rs:1954-1977 | The resync-requiring notifications the UI took are a prefix of those the server sent |
| `RouterDelivery.UiSeesListedPrefix` | crates/codex-platform/src/app_server.rs:2109-2129 | The notifications with one of the sixteen listed names that the UI took are a prefix of those the server sent |
| `RouterDelivery.RunCarries` | crates/codex-platform/src/app_server.rs:1954-1977 | In every run, what holds of all messages sent holds of every message held, queued or accepted: none is made up or altered |
| `RouterSafety.NothingSemanticLostWhileLive` | crates/codex-platform/src/app_server.rs:2048-2091 | While reader and router live, what was accepted for the UI, what is in the two hands and what is queued or unread is the whole sequence sent, in order: a loss means one of them stopped, and a stopped reader takes the router down (`RouterDelivery.StoppedReaderStopsRouter`) |
| `RouterSafety.NothingSemanticAfterStop` | crates/codex-platform/src/app_server.rs:2181-2266 | After the reader (router) has stopped it queues nothing semantic any more and never comes back |
| `RouterDelivery.StoppedReaderStopsRouter` | crates/codex-platform/src/app_server.rs:1954-1977 | A router that took anything but a message from the reader has stopped; with the reader stopped, a step of the router on its queue takes one of the messages left or stops it, and when none is left it can only stop |
| `RouterDelivery.StoppedReaderQueuesNothing` | crates/codex-platform/src/app_server.rs:2181-2248 | The queue of a stopped reader never grows again and is only consumed |
| `RouterSafety.HeldBytesAreBounded` | crates/codex-platform/src/app_server.rs:1991-2091 | In every run the budget counts exactly the leases of queued, pending, replied and displayed frames and stays within its limit; a frame is admitted iff it fits beside them |
| `RouterSafety.LossIsAnnounced` | crates/codex-platform/src/app_server.rs:2131-2148 | Below counter saturation the losable notifications read are those accepted, in flight, announced as dropped, or still in the two counters; a stopped reader and a stopped router may each lose one more |
| `RouterSafety.ServerRequestsSettled` | crates/codex-platform/src/app_server.rs:2026-2047 | Every server request the router took is queued for the UI or refused by one overload error with its id; one may be left over only when the router stopped |
| `RouterSafety.InvKept` | crates/codex-platform/src/app_server.rs:1907-1989 | One action of any thread, with any answer of the queues, the clock and the process, keeps the invariant |
| `RouterSafety.RunKeepsInv` | crates/codex-platform/src/app_server.rs:1884-1989 | Every state of a run satisfies the invariant |
| `RouterSystem.RouterKeepsOrder` | crates/codex-platform/src/app_server.rs:1954-1977 | A router action keeps: accepted semantic events are those taken from the queue, in order, but for the one in hand |
| `RouterSystem.ReaderKeepsOrder` | crates/codex-platform/src/app_server.rs:2181-2248 | A reader action keeps: queued semantic messages are those read, in order, but for the one in hand |
| `RouterSystem.CallerKeepsIds` | crates/codex-platform/src/app_server.rs:1681-1687 | Request ids are handed out in order and no two queued requests share one |
| `RouterSystem.RouterKeepsAnswering` | crates/codex-platform/src/app_server.rs:1907-1989 | A router action keeps the account of requests: pending without a reply, or answered once |
| `RouterSystem.ReaderKeepsBudget` | crates/codex-platform/src/app_server.rs:2193-2232 | A reader action keeps the budget exact: a lease is taken for the message in hand and given back when its send fails |
| `RouterSystem.RouterKeepsBudget` | crates/codex-platform/src/app_server.rs:1991-2061 | A router action keeps the budget exact: the lease goes on with the reply or the event, or is dropped |
| `RouterSystem.UiKeepsBudget` | crates/codex-platform/src/byte_budget.rs:88-95 | Releasing a guard or a reply, or closing the UI, gives back exactly the leases it held; the subtraction never saturates |
| `RouterSystem.ReaderKeepsConservation` | crates/codex-platform/src/app_server.rs:2203-2216 | A reader action keeps the count of losable notifications |
| `RouterSystem.RouterKeepsConserving` | crates/codex-platform/src/app_server.rs:2063-2091 | A router action keeps the count of losable notifications |
| `RouterSystem.RouterKeepsCounters` | crates/codex-platform/src/app_server.rs:1901-1905 | Collecting and publishing drops moves them from counter to counter to the UI and loses none below saturation |
| `RouterSystem.RouterKeepsSettled` | crates/codex-platform/src/app_server.rs:2026-2047 | A router action settles the server request in hand exactly once, or stops |
| `RouterSystem.RouterKeepsAuthentic` | crates/codex-platform/src/app_server.rs:2004-2025 | A router action answers only with the content of a response that carried the id |
| `RouterCore.ExpireAccounts` | crates/codex-platform/src/app_server.rs:2156-2170 | Expiry answers each expired request once, and no other |
| `RouterCore.StopAccounts` | crates/codex-platform/src/app_server.rs:2172-2179 | Stopping answers every pending request once |
| `RouterCore.TakeRequestAccounts` | crates/codex-platform/src/app_server.rs:1911-1929 | A request that is taken becomes pending or is answered at once: over the cap, or not written |
| `RouterCore.HandleAccounts` | crates/codex-platform/src/app_server.rs:2004-2025 | Handling a message keeps the account of requests |
| `RouterReplies.ExpiryIsTimely` | crates/codex-platform/src/app_server.rs:2156-2170 | In every run: after an expiry no pending deadline is at or before its time; a pending request with a later deadline still is pending and unanswered, one that was due is answered by its timeout, under its name |
| `RouterReplies.TimeoutsAreDue` | crates/codex-platform/src/app_server.rs:2156-2170 | In every run a request is answered by a timeout only if it was pending under that name and due at an expiry |
| `RouterReplies.PendingIsIssuedInRuns` | crates/codex-platform/src/app_server.rs:1911-1921 | In every run what is pending was issued with that name and deadline, taken off the queue, and its frame written |
| `RouterReplies.QueuesAreBounded` | crates/codex-platform/src/app_server.rs:804-805 | In every run the reader queue and the event queue stay within their capacities |
| `RouterReplies.ExpiryIsExact` | crates/codex-platform/src/app_server.rs:2156-2170 | Exactly the requests whose deadline is at or before the time are removed and timed out; the others are kept as they are |
| `RouterReplies.StopIsExact` | crates/codex-platform/src/app_server.rs:2172-2179 | Exactly the pending requests are told that the transport closed |
| `RouterReplies.RequestIsTaken` | crates/codex-platform/src/app_server.rs:1911-1929 | A request is refused over the cap, pending as issued once written, or failed with all pending ones |
| `RouterReplies.ResponseIsHandled` | crates/codex-platform/src/app_server.rs:2004-2025 | A response answers the pending request with its id and no other; without a number it stops the router |
| `RouterReplies.EventIsHandled` | crates/codex-platform/src/app_server.rs:2026-2091 | What becomes of a server request and of each kind of notification for each answer of the event queue |
| `RouterReplies.AnnouncementsAreExact` | crates/codex-platform/src/app_server.rs:2131-2148 | A due drop count is published as soon as there is room, else kept; the end is announced if there is room |
| `RouterReplies.FramesAreRead` | crates/codex-platform/src/app_server.rs:2193-2232 | A frame is handed on with its bytes leased iff it fits the budget; a losable one that does not is counted, another makes the reader give up |
| `RouterReplies.EventsAreHandedOn` | crates/codex-platform/src/app_server.rs:2218-2266 | An event is queued while the router has room, else the reader stops and gives its lease back |
| `RouterReplies.EndIsReported` | crates/codex-platform/src/app_server.rs:2236-2244 | The end of the output is reported only when all that was sent has been read |
| `RouterReplies.DropsComeFirst` | crates/codex-platform/src/app_server.rs:2048-2061 | Before a notification, and no other message, the drop count is published |
| `RouterReplies.UiTakesTheNext` | crates/codex-platform/src/app_server.rs:1013-1021 | The UI takes the events one by one with their leases |
| `RouterReplies.IdsAreHandedOut` | crates/codex-platform/src/app_server.rs:1681-1687 | A call is given the next number, the first one not handed out before |
| `RouterCore.SendReplies` | crates/codex-platform/src/app_server.rs:2172-2179 | Draining the table in any order sends each request its one reply |
| `RouterCore.Router.ExpirePendingRequests` | crates/codex-platform/src/app_server.rs:2156-2170 | Removes and answers what `RouterReplies.ExpiryIsExact` names: exactly the requests whose deadline has come |
| `RouterCore.Router.FailPendingRequests` | crates/codex-platform/src/app_server.rs:2172-2179 | Empties the table and fails each request in it |
| `RouterCore.Router.PublishDropCount` | crates/codex-platform/src/app_server.rs:2131-2148 | The count reaches the queue and is reset, or both stay |
| `RouterCore.Router.RouteRequest` | crates/codex-platform/src/app_server.rs:1911-1929 | Refuses over the cap; keeps the request pending when its frame was written; else answers it and stops |
| `RouterCore.Router.PublishNotification` | crates/codex-platform/src/app_server.rs:2063-2091 | Queues the notification; counts a losable one that finds the queue full; fails otherwise |
| `RouterCore.Router.HandleRoutedMessage` | crates/codex-platform/src/app_server.rs:1991-2061 | The new state of one handled message, all four kinds and all failures, the drop count published before a notification included |
| `ByteBudget.Budget.AcquireIfAvailable` | crates/codex-platform/src/byte_budget.rs:72-86 | Grants a lease exactly when it fits beside the live ones |
| `ByteBudget.Budget.Drop` | crates/codex-platform/src/byte_budget.rs:88-95 | The subtraction on drop is exact: used stays the sum of the live leases |
| `ByteBudget.Budget.AcquireTimeout` | crates/codex-platform/src/byte_budget.rs:43-70 | A waiter stops at its first look that grants, is past the deadline or wakes timed out without room; it gets its lease iff it fits at that look |
| `DownloadRuns.ReservationsAndPermission` | crates/codex-platform/src/browser.rs:3286-3374 | In every run the reserved paths are exactly the chosen or default paths of the downloads in flight, pairwise distinct; the browser allows downloads iff an approval is pending or a download is in flight |
| `DownloadRuns.HistoriesAreOrderly` | crates/codex-platform/src/browser.rs:3681-3808 | In every run the statuses of a download are Started, then any that do not end it, then at most one that does and nothing after; it is in flight exactly in between; a finished file is held back only while its prompt is open, without a destination and not paused |
| `DownloadRuns.EveryDownloadWasApproved` | crates/codex-platform/src/browser.rs:3601-3619 | Every download that began used up an approval of its own; what is in flight was approved in its context, with its staging directory, and by the user or to the agent for its very URL |
| `DownloadRuns.OnlyApprovedDownloadsBegin` | crates/codex-platform/src/browser.rs:3601-3679 | In every run a download begins only on an approval for its frame and, from the agent, its URL; its name was free; it waits for an answer iff the user began it and wants to be asked |
| `DownloadRuns.CompletionIsReported` | crates/codex-platform/src/browser.rs:3713-3747 | In every run a completed transfer is complete iff its file could be moved to the chosen destination, canceled if the prompt was declined, and waits while the prompt is open; no other download is touched |
| `DownloadRuns.CompletionsAreTrue` | crates/codex-platform/src/browser.rs:3351-3374 | A download that a run records as complete had its file moved to its destination, one recorded as failed did not |
| `DownloadRuns.AnswerAndCompletionCommute` | crates/codex-platform/src/browser.rs:3325-3374 | Answering the prompt before or after the transfer completes leaves the same state and ends the download the same way |
| `DownloadRuns.ResumeUndoesPause` | crates/codex-platform/src/browser.rs:3392-3446 | Resuming undoes pausing, but for the two entries in the history |
| `DownloadEffects.ApprovalsAreYoung` | crates/codex-platform/src/browser.rs:3520-3532 | In every run with a clock that does not run backwards a pending approval was given, or asked for again by the user, less than ten seconds before the last time looked at |
| `DownloadEffects.ExpiryIsExact` | crates/codex-platform/src/browser.rs:3520-3532 | An approval goes when its time has come, and not before |
| `DownloadEffects.RevocationIsExact` | crates/codex-platform/src/browser.rs:3534-3550 | Closing a tab takes the approval its agent was given there, and no other |
| `DownloadEffects.AgentApprovalIsExact` | crates/codex-platform/src/browser.rs:2795-2841 | While an approval is good the agent gets no other, and the same again; otherwise one for ten seconds, its frames and that URL |
| `DownloadEffects.UserApprovalIsExact` | crates/codex-platform/src/browser.rs:3552-3583 | The user's own approval is extended, another left alone, a new one given |
| `DownloadEffects.ApprovedBegins` | crates/codex-platform/src/browser.rs:3645-3668 | An approved download begins under the first free name with exactly these fields |
| `DownloadEffects.UnapprovedIsCancelled` | crates/codex-platform/src/browser.rs:3601-3614 | One without an approval is cancelled at the browser and nothing else happens |
| `DownloadEffects.OverTheLimitIsCancelled` | crates/codex-platform/src/browser.rs:3620-3641 | The seventeenth is cancelled and uses up its approval |
| `DownloadEffects.RunningIsReported` | crates/codex-platform/src/browser.rs:3690-3712 | A running transfer keeps its numbers and is reported running or paused; an unknown one is cancelled |
| `DownloadEffects.CompletionWaits` | crates/codex-platform/src/browser.rs:3725-3735 | A completed transfer with an open prompt waits with its file, not paused |
| `DownloadEffects.AnswersAreRefused` | crates/codex-platform/src/browser.rs:3286-3329 | Exactly when an answer to the save prompt is refused, without a trace |
| `DownloadEffects.DeclineIsExact` | crates/codex-platform/src/browser.rs:3305-3323 | A declined prompt cancels the download, at once if the file is there |
| `DownloadEffects.ChoiceIsExact` | crates/codex-platform/src/browser.rs:3325-3347 | A chosen destination is kept and reserved instead of the default one |
| `DownloadEffects.PauseIsExact` | crates/codex-platform/src/browser.rs:3392-3418 | Exactly when a transfer is paused, and the state then |
| `DownloadEffects.ResumeIsExact` | crates/codex-platform/src/browser.rs:3420-3446 | Exactly when a transfer is resumed, and the state then |
| `DownloadRuns.FailedReservationLeavesAllowed` | crates/codex-platform/src/browser.rs:3223-3249 | The start of a download leaves the browser allowing exactly what is needed iff it is not admitted, over the limit, finds a free name, or another download is in flight; the same holds of the whole invariant |
| `DownloadRuns.StrandedAfterOneGrant` | crates/codex-platform/src/browser.rs:3585-3643 | The run that leaves downloads allowed for nothing: one grant of the user, then a download all of whose names are on disk |
| `DownloadRuns.PhaseMeans` | crates/codex-platform/src/browser.rs:3761-3808 | A log of statuses is orderly iff a four-state automaton accepts it |
| `DownloadRuns.ApplyKeeps` | crates/codex-platform/src/browser.rs:2782-2841 | Every operation that does not end the session keeps the invariant |
| `DownloadRuns.WillBeginKeeps` | crates/codex-platform/src/browser.rs:3585-3679 | The start of a download keeps the invariant: refused, over the limit, or begun with a path of its own |
| `DownloadRuns.OnProgressKeeps` | crates/codex-platform/src/browser.rs:3681-3759 | Progress, completion and cancelling by the browser keep the invariant |
| `DownloadRuns.SetDestinationKeeps` | crates/codex-platform/src/browser.rs:3286-3349 | The answer to the save prompt keeps the invariant, with or without a finished file waiting |
| `DownloadRuns.CancelKeeps` | crates/codex-platform/src/browser.rs:3376-3390 | Cancelling keeps the invariant |
| `DownloadRuns.PauseKeeps` | crates/codex-platform/src/browser.rs:3392-3418 | Pausing keeps the invariant |
| `DownloadRuns.ResumeKeeps` | crates/codex-platform/src/browser.rs:3420-3446 | Resuming keeps the invariant |
| `DownloadRuns.RedirectKeeps` | crates/codex-platform/src/browser.rs:3325-3333 | A chosen path replaces the default reservation and collides with no other |
| `Downloads.FirstFree` | crates/codex-platform/src/browser.rs:3234-3247 | The reserved name is neither on disk nor reserved; there is none iff none of the 10,000 candidates is free |
| `Downloads.DownloadRuntime.constructor` | crates/codex-platform/src/browser.rs:2049-2052 | The set-up leaves downloads denied whatever was set before |
| `Downloads.DownloadRuntime.SetDownloadBehavior` | crates/codex-platform/src/browser.rs:3488-3518 | Asks the browser unless it is known to deny already |
| `Downloads.DownloadRuntime.ExpireDownloadGrant` | crates/codex-platform/src/browser.rs:3520-3532 | Drops an expired approval, and the permission if nothing else needs it |
| `Downloads.DownloadRuntime.RevokeDownloadGrantForTab` | crates/codex-platform/src/browser.rs:3534-3550 | Drops the approval of a closed tab, and no other |
| `Downloads.DownloadRuntime.AgentAllowDownload` | crates/codex-platform/src/browser.rs:2795-2841 | Grants one approval at a time, and the same one again |
| `Downloads.DownloadRuntime.PrepareUserDownloadGrant` | crates/codex-platform/src/browser.rs:3552-3583 | Extends the user's own approval, grants a new one, and leaves another's alone |
| `Downloads.DownloadRuntime.ReserveDownloadPath` | crates/codex-platform/src/browser.rs:3223-3249 | Reserves the first free candidate |
| `Downloads.DownloadRuntime.HandleDownloadWillBegin` | crates/codex-platform/src/browser.rs:3585-3679 | The whole new state when a download begins |
| `Downloads.DownloadRuntime.FinishDownload` | crates/codex-platform/src/browser.rs:3351-3374 | Frees the path, records the last status, and denies downloads when nothing needs them |
| `Downloads.DownloadRuntime.HandleDownloadProgress` | crates/codex-platform/src/browser.rs:3681-3759 | The whole new state for each progress event |
| `Downloads.DownloadRuntime.SetDownloadDestination` | crates/codex-platform/src/browser.rs:3286-3349 | The whole new state for each answer to the prompt, and each refusal |
| `Downloads.DownloadRuntime.CancelDownload` | crates/codex-platform/src/browser.rs:3376-3390 | An open prompt is declined, otherwise the browser is asked |
| `Downloads.DownloadRuntime.PauseDownload` | crates/codex-platform/src/browser.rs:3392-3418 | Pauses a running transfer, or refuses without a trace |
| `Downloads.DownloadRuntime.ResumeDownload` | crates/codex-platform/src/browser.rs:3420-3446 | Resumes a paused transfer, or refuses without a trace |
| `TabCommands.EveryRunHolds` | crates/codex-platform/src/browser.rs:3854-4117 | After every command of every run: at most 16 tabs; the active one is in range, belongs to the active context, and is the only one cast, at that context's viewport; every tab is emulated at its context's viewport; exactly the contexts with tabs remember one, one of theirs |
| `TabCommands.ApplyHolds` | crates/codex-platform/src/browser.rs:3854-4117 | Every command keeps that invariant |
| `TabRuns.OpenTabHolds` | crates/codex-platform/src/browser.rs:3854-3885 | Opening a tab keeps it, also at the limit |
| `TabRuns.SelectTabHolds` | crates/codex-platform/src/browser.rs:3887-3906 | Selecting a tab keeps it (which tab is then active: `TabEffects.SelectTabIsExact`) |
| `TabRuns.CloseTabHolds` | crates/codex-platform/src/browser.rs:3908-3953 | Closing a tab keeps it, also the last tab of a context and the active one |
| `TabRuns.ClosingAnotherTabKeepsActive` | crates/codex-platform/src/browser.rs:3927-3951 | Closing a tab that is not active leaves the same tab active |
| `TabRuns.CloseContextHolds` | crates/codex-platform/src/browser.rs:3955-4011 | Closing a context keeps it |
| `TabRuns.CloseContextIsExact` | crates/codex-platform/src/browser.rs:3964-4010 | Closing a context closes its tabs and no other, and leaves the active tab active unless it is one of them |
| `TabRuns.ActivateContextHolds` | crates/codex-platform/src/browser.rs:4013-4049 | Activating a context keeps it, opening a tab if it has none |
| `TabRuns.ResizeHolds` | crates/codex-platform/src/browser.rs:4051-4063 | A new surface size keeps it, and is clamped |
| `TabRuns.SetViewportHolds` | crates/codex-platform/src/browser.rs:4072-4081 | A viewport of its own keeps it |
| `TabRuns.ResetOverrideHolds` | crates/codex-platform/src/browser.rs:4083-4086 | Resetting the viewport keeps it |
| `TabRuns.ApplyViewportHolds` | crates/codex-platform/src/browser.rs:4103-4117 | Applying a context's viewport reaches its tabs and the screencast |
| `TabRuns.MarkTabHolds` | crates/codex-platform/src/browser.rs:2896-2921 | Marking a tab keeps it |
| `TabRuns.TurnEndedHolds` | crates/codex-platform/src/browser.rs:2923-2962 | The end of a turn keeps it |
| `TabTurns.CloseTabIsExact` | crates/codex-platform/src/browser.rs:3908-3953 | Closing a tab takes away that tab and no other; a context whose last tab is closed gets one blank tab of the user |
| `TabTurns.CloseAllIsExact` | crates/codex-platform/src/browser.rs:2946-2949 | Closing tabs one after the other leaves all others in order, and a blank tab iff the context has none left |
| `TabTurns.TurnEndedIsExact` | crates/codex-platform/src/browser.rs:2923-2962 | After turnEnded the tabs are those before but for the agent's unmarked ones of the context, in order, a blank one iff none is left, the turn's marks gone and no others |
| `TabTurns.OnlyMarkedTabsAreLeft` | crates/codex-platform/src/browser.rs:2933-2945 | The agent's tabs left in the context are those it marked in that turn, and no mark of the turn is left |
| `TabTurns.OtherTabsAreLeft` | crates/codex-platform/src/browser.rs:2933-2945 | No marked tab, no tab of the user and no tab of another context is lost |
| `TabTurns.ContextKeepsATab` | crates/codex-platform/src/browser.rs:3934-3937 | The context still has a tab after its turn |
| `TabTurns.FinalizeTabsIsExact` | crates/codex-platform/src/browser.rs:2862-2894 | After finalizeTabs the tabs are those before but for the agent's unlisted ones of the context, and its viewport is reset |
| `TabEffects.TurnEndedTabs` | crates/codex-platform/src/browser.rs:2923-2962 | Of the tabs before, exactly the agent's in the context without a mark of that turn are gone; the marks of the turn are cleared there, no others |
| `TabEffects.TurnEndedAddsNothing` | crates/codex-platform/src/browser.rs:2923-2962 | Any tab afterwards was there before, or is the blank one of the user |
| `TabEffects.FinalizeTabsTabs` | crates/codex-platform/src/browser.rs:2862-2894 | Of the tabs before, exactly the agent's in the context that are not listed are gone; only a blank one of the user is new |
| `TabEffects.SelectTabIsExact` | crates/codex-platform/src/browser.rs:3887-3906 | Selecting a tab makes that tab the active one and remembers it; tabs, viewports and the other contexts' entries stay; one the context does not have is refused |
| `TabEffects.ActivateContextIsExact` | crates/codex-platform/src/browser.rs:4013-4049 | Activating another context makes the tab it remembers the active one, and changes nothing else |
| `TabEffects.OpeningIsExact` | crates/codex-platform/src/browser.rs:3854-3885 | Opening adds one new tab of the origin asked for at the end, active and remembered; at sixteen nothing happens |
| `TabEffects.ClosingTheActiveTab` | crates/codex-platform/src/browser.rs:3940-3942 | When the active tab is closed the first tab left of its context becomes active |
| `TabEffects.ClosingTheActiveContext` | crates/codex-platform/src/browser.rs:3998-4009 | When the active context is closed, the tab in the place of the active one decides which context becomes active, with its own tab |
| `TabEffects.SetViewportIsExact` | crates/codex-platform/src/browser.rs:4072-4117 | A viewport of its own reaches the tabs of that context, and no others |
| `TabEffects.SurfaceIsClamped` | crates/codex-platform/src/browser.rs:4052-4053 | A surface's size is taken as it is within the bounds, and else the nearest |
| `TabEffects.MarkTabIsExact` | crates/codex-platform/src/browser.rs:2896-2921 | A mark goes to the tab of that number in the context, and to no other |
| `TabTurns.OpenTabIsExact` | crates/codex-platform/src/browser.rs:3854-3885 | A new tab comes last, belongs to the context and becomes active; the others stay |
| `TabTurns.ResizeIsExact` | crates/codex-platform/src/browser.rs:4051-4063 | Resizing changes no tab but its viewport, and none of a context with a size of its own |
| `TabTurns.ResetUndoesSet` | crates/codex-platform/src/browser.rs:4072-4086 | Resetting a context's viewport undoes setting it |
| `TabTurns.ComingBackFindsTheEntry` | crates/codex-platform/src/browser.rs:4022-4043 | Leaving a context for another, opened if need be, and coming back finds the tab its entry names: the one that was active iff the entry named it |
| `TabTurns.ClosingMovesTheEntry` | crates/codex-platform/src/browser.rs:3943-3949 | After another tab of the active context is closed the entry names the active tab iff no tab of the context comes before it but the one closed |
| `TabTurns.CloseLeaveComeBack` | crates/codex-platform/src/browser.rs:3908-4049 | Closing an inactive tab of the active context, visiting another context and coming back finds the tab that was active iff no tab of its context came before it but the one closed |
| `TabCommands.AnotherTabAfterComingBack` | crates/codex-platform/src/browser.rs:3908-4049 | A run that comes back to another tab: three tabs open, the second closed, another context visited |
| `TabCommands.TabRuntime.OpenTab` | crates/codex-platform/src/browser.rs:3854-3885 | The whole new state; refused at 16 tabs |
| `TabCommands.TabRuntime.SelectTab` | crates/codex-platform/src/browser.rs:3887-3906 | The whole new state, which `TabEffects.SelectTabIsExact` describes |
| `TabCommands.TabRuntime.CloseTab` | crates/codex-platform/src/browser.rs:3908-3953 | The whole new state |
| `TabCommands.TabRuntime.CloseContext` | crates/codex-platform/src/browser.rs:3955-4011 | The whole new state |
| `TabCommands.RemoveTabsOf` | crates/codex-platform/src/browser.rs:3964-3984 | Removing a context's tabs last first leaves the others and moves the active index by those before it |
| `TabCommands.TabRuntime.ActivateContext` | crates/codex-platform/src/browser.rs:4013-4049 | The whole new state |
| `TabCommands.TabRuntime.Resize` | crates/codex-platform/src/browser.rs:4051-4063 | The whole new state, whatever the order in which the contexts are reached |
| `TabCommands.TabRuntime.ApplyContextViewport` | crates/codex-platform/src/browser.rs:4103-4117 | The whole new state |
| `TabCommands.TabRuntime.AttachTarget` | crates/codex-platform/src/browser.rs:4231-4283 | A new tab at the end, with fresh numbers and its context's viewport |
| `TabCommands.TabRuntime.AgentTurnEnded` | crates/codex-platform/src/browser.rs:2923-2962 | The whole new state |
| `TabCommands.TabRuntime.AgentFinalizeTabs` | crates/codex-platform/src/browser.rs:2862-2894 | The whole new state |
| `TabCommands.TabRuntime.AgentMarkTab` | crates/codex-platform/src/browser.rs:2896-2921 | The whole new state |
| `ChildSessions.RunKeepsForest` | crates/codex-platform/src/browser.rs:1852-1927 | With collision-free session ids every run keeps a forest of at most 64 sessions, each chain ending at the live root of the tab it is attributed to |
| `ChildSessions.ForestHasNoCycle` | crates/codex-platform/src/browser.rs:1868-1896 | No session is its own ancestor |
| `ChildSessions.RecordKeepsForest` | crates/codex-platform/src/browser.rs:1868-1896 | Recording keeps the forest |
| `ChildSessions.RemoveKeepsForest` | crates/codex-platform/src/browser.rs:1898-1927 | Removal keeps the forest |
| `ChildSessions.CloseTabKeepsForest` | crates/codex-platform/src/browser.rs:3925-3926 | Closing a tab keeps the forest |
| `ChildSessions.RecordIsExact` | crates/codex-platform/src/browser.rs:1868-1896 | A session is recorded below any session, at whatever depth, whose chain ends at a tab's root, and for that tab; below no other, with no malformed identifier, and not over 64 |
| `ChildSessions.RecordedOnce` | crates/codex-platform/src/browser.rs:1880-1886 | A session recorded already, or announcing itself, is left as it is |
| `ChildSessions.RemoveIsExact` | crates/codex-platform/src/browser.rs:1898-1927 | Every recorded session can be removed through its parent and no other; it goes with all below it, and no others |
| `ChildSessions.CloseTabIsExact` | crates/codex-platform/src/browser.rs:3925-3926 | Closing a tab takes exactly the sessions whose chain ends at its root |
| `ChildSessions.RemovalStep` | crates/codex-platform/src/browser.rs:1917-1925 | One step of the search keeps: queued ids are distinct, still recorded and below the removed one |
| `ChildSessions.RemovalEnds` | crates/codex-platform/src/browser.rs:1917-1925 | When the queue is empty exactly the descendants are gone |
| `ChildSessions.SessionTable.Record` | crates/codex-platform/src/browser.rs:1868-1896 | The whole new table, which `ChildSessions.RecordIsExact` describes |
| `ChildSessions.SessionTable.Remove` | crates/codex-platform/src/browser.rs:1898-1927 | The whole new table, which `ChildSessions.RemoveIsExact` describes; the search terminates |
| `ChildSessions.SessionTable.Retain` | crates/codex-platform/src/browser.rs:3925-3926 | Drops exactly the closed tab's sessions |
| `Wildcard.WildcardPatternMatches` | crates/codex-platform/src/browser.rs:1152-1196 | The greedy matcher answers true iff the pattern, declaratively, matches the whole value; it terminates |
| `Wildcard.NewStar` | crates/codex-platform/src/browser.rs:1180-1184 | At a new star the earlier one may be forgotten |
| `Wildcard.FailedAttempt` | crates/codex-platform/src/browser.rs:1185-1192 | A mismatch rules out the current start of the run after the star, and no other |
| `Wildcard.ValueExhausted` | crates/codex-platform/src/browser.rs:1193-1196 | When the value is used up only stars may remain |
| `Wildcard.Tokenise` | crates/codex-platform/src/browser.rs:1159-1167 | Tokens as the escaping rules say, a trailing backslash literal |
| `Wildcard.EscapedMatchesOnlyItself` | crates/codex-platform/src/browser.rs:1159-1167 | A text with its stars and backslashes escaped matches itself and nothing else |
| `FrameCodec.ReassemblyIsChunkIndependent` | crates/codex-platform/src/browser_agent.rs:484-521 | For any messages cut into any chunks, with any frame limits, the decoded messages followed by the frames still buffered are the messages sent; the buffer is the exact suffix not consumed |
| `FrameCodec.WholeStreamIsDecoded` | crates/codex-platform/src/browser_agent.rs:484-521 | Once all arrived and no whole frame is buffered, all messages were decoded and nothing is left |
| `FrameCodec.DecodePrefix` | crates/codex-platform/src/browser_agent.rs:484-521 | One call decodes a prefix of the messages and leaves the rest of the stream |
| `FrameCodec.OversizedFrameFails` | crates/codex-platform/src/browser_agent.rs:492-498 | After any messages a header announcing more than 8 MiB fails and stays in the buffer |
| `FrameCodec.UnparsableFrameFails` | crates/codex-platform/src/browser_agent.rs:511-517 | After any messages a frame that does not parse fails and is gone from the buffer |
| `FrameCodec.NativeCodecIsInverse` | crates/codex-platform/src/browser_agent.rs:523-546 | The four-byte length in either byte order and the payload come back |
| `FrameCodec.NativeHeaderIs` | crates/codex-platform/src/browser_agent.rs:491-492 | The four bytes of the length in either byte order |
| `FrameCodec.FillAcceptsWhatFits` | crates/codex-platform/src/browser_agent.rs:168-198 | A tick of reading refuses exactly when the buffer and what arrives exceed one maximal frame |
| `FrameCodec.LegalStreamIsRefused` | crates/codex-platform/src/browser_agent.rs:168-198 | A legal stream that is refused: a maximal frame lacking one byte, completed by a chunk that brings a byte of the next frame too; without that byte the chunk is accepted |
| `FrameCodec.MaximalMessageExists` | crates/codex-platform/src/browser_agent.rs:523-546 | Maximal messages exist |
| `FrameCodec.ReaderSeesWhatWasEnqueued` | crates/codex-platform/src/browser_agent.rs:226-280 | Whatever part of the written bytes has arrived, the peer decodes a prefix of the messages enqueued |
| `FrameCodec.BridgeClient.DecodeMessages` | crates/codex-platform/src/browser_agent.rs:484-521 | The loop over the buffer computes the specification, errors included |
| `FrameCodec.BridgeClient.ReadMessages` | crates/codex-platform/src/browser_agent.rs:168-198 | Up to eight chunks are appended, then up to eight frames decoded |
| `FrameCodec.BridgeClient.Enqueue` | crates/codex-platform/src/browser_agent.rs:226-237 | A message is queued whole iff it is encodable and fits the queue; refused without a trace otherwise |
| `FrameCodec.BridgeClient.WriteOnce` | crates/codex-platform/src/browser_agent.rs:239-280 | Written and unwritten bytes together stay the enqueued stream |
| `FrameCodec.BridgeClient.Flush` | crates/codex-platform/src/browser_agent.rs:239-280 | Bytes reach the socket in order, none twice or skipped, until the queue is empty or the socket would block |
| `LineReader.ReadBoundedLine` | crates/codex-platform/src/computer_use_helper.rs:835-882 | The result and the stream left behind depend on the bytes alone, not on the chunks buffered |
| `LineReader.DrainLine` | crates/codex-platform/src/computer_use_helper.rs:852-864 | An over-long line is skipped to just behind its newline |
| `LineReader.LinesAreReadIndependently` | crates/codex-platform/src/computer_use_helper.rs:835-882 | Every line is judged on its own length; lines after an over-long one are read as if it had not been there |
| `LineReader.TextRoundTrip` | crates/codex-platform/src/computer_use_helper.rs:872-880 | A text sent with LF or CR LF comes back iff the line is at most limit + 1 bytes |
| `GitStatus.ParsingUndoesPrinting` | crates/codex-platform/src/git.rs:1736-1849 | For any headers and entries with any change on either side and NUL-free paths, the parser returns what was printed: path, source, kind, staged and unstaged; a rename source is never misread |
| `GitStatus.ItemMeans` | crates/codex-platform/src/git.rs:1749-1849 | One printed item is read as what it means, whatever follows; the kind is the work tree's, if it changed, else the index's |
| `GitStatus.FilesInOrder` | crates/codex-platform/src/git.rs:1736-1821 | The files come out in the order of the entries, one each |
| `GitStatus.AbMeans` | crates/codex-platform/src/git.rs:1758-1767 | The ahead and behind counts come back, out-of-range ones as zero |
| `GitStatus.SignedNumbers` | crates/codex-platform/src/git.rs:1758-1767 | One plus sign may come before the digits, nothing else, and they may not be missing |
| `GitStatus.MalformedRecordsFail` | crates/codex-platform/src/git.rs:1775-1819 | Exactly the records that lack fields or start with a letter git does not use fail |
| `GitStatus.MalformedOutputFails` | crates/codex-platform/src/git.rs:1736-1821 | A malformed record after any well-formed items makes the output invalid |
| `GitStatus.HeadersAreGits` | crates/codex-platform/src/git.rs:1752-1769 | The texts and letters looked for are git's |
| `GitStatus.ParseStatus` | crates/codex-platform/src/git.rs:1736-1821 | The record loop computes the specification, errors included |
| `Utf8.PushBoundedText` | crates/codex-platform/src/git.rs:1702-1717 | The loop back to a character boundary computes the specification |
| `Utf8.CutIsLongestFittingText` | crates/codex-platform/src/git.rs:1702-1717 | A cut is the longest prefix that fits and ends between two characters, flagged iff shorter |
| `Utf8.PushingPiecesCutsTheirConcatenation` | crates/codex-platform/src/git.rs:1702-1717 | Pushing any pieces one after the other cuts their concatenation |
| `Utf8.BoundaryIsBetweenCharacters` | crates/codex-platform/src/git.rs:1712-1714 | Looking at one byte tells whether a position is between two characters |
| `Utf8.EncodedIsUtf8` | crates/codex-platform/src/git.rs:1602-1607 | The encodings of character sequences are valid UTF-8 and decode to them |
| `Utf8.Utf8IsEncoded` | crates/codex-platform/src/git.rs:1602-1607 | Valid UTF-8 is the encoding of the characters it decodes to |
| `Utf8.ExamplesOfTheStandard` | crates/codex-platform/src/git.rs:1602-1607 | The encoder agrees with the examples of section 7 of RFC 3629 |
| `GitDiff.UntrackedDiff` | crates/codex-platform/src/git.rs:1585-1649 | The diff of a file within a limit on what is read and what is written, errors included |
| `GitDiff.UnflaggedDiffIsComplete` | crates/codex-platform/src/git.rs:1600-1648 | A diff is unflagged iff the file and its whole diff fit, and then it is the whole diff; it never exceeds the limit |
| `GitDiff.DiffIsLonger` | crates/codex-platform/src/git.rs:1609-1633 | The diff of a text is longer than the text |
| `GitDiff.UnflaggedDiffReconstructs` | crates/codex-platform/src/git.rs:1609-1644 | An unflagged diff of a text reads back as the file with CR LF turned into LF: as the file, final newline included, iff it holds no CR LF |
| `GitDiff.CrLfIsLost` | crates/codex-platform/src/git.rs:1628-1631 | A file that shows it |
| `GitDiff.GitHeaderIs` | crates/codex-platform/src/git.rs:1616-1617 | The header of a new file as git writes it |
| `GitDiff.GitHunkIs` | crates/codex-platform/src/git.rs:1624-1641 | The hunk's first line and the mark of a missing newline as git writes them |
| `GitDiff.PushHunk` | crates/codex-platform/src/git.rs:1621-1644 | The hunk is cut as one text, in spite of the early exit from the loop |
| `CommitContext.CommitContextIsExact` | crates/codex-platform/src/git.rs:632-705 | The context is a text of at most 20 KiB; it is unflagged iff everything could be read and fits, and then it is both diffs and every file's whole diff |
| `CommitContext.ListingIsRead` | crates/codex-platform/src/git.rs:677-681 | A listing is read as the paths it lists: all of them, in order |
| `CommitContext.UnflaggedContextHasEveryFile` | crates/codex-platform/src/git.rs:632-705 | For any listed files an unflagged context is both sections followed by the diff of every file, in order |
| `CommitContext.FlaggedAlthoughItFits` | crates/codex-platform/src/git.rs:669-702 | A context that would fit as a whole is flagged all the same iff untracked files are included and there are too many, their listing is too long, one comes up when the context is exactly full, or one that is no text is larger than the room left |
| `CommitContext.FlaggedAlthoughWhole` | crates/codex-platform/src/git.rs:682-687 | A repository whose context is the whole of it and flagged: exactly full, and an untracked file that is not text |
| `CommitContext.FilesAreExact` | crates/codex-platform/src/git.rs:669-702 | The same for the untracked files |
| `CommitContext.SectionIsExact` | crates/codex-platform/src/git.rs:635-667 | The same for one section of git output |
| `CommitContext.CommitMessageDiff` | crates/codex-platform/src/git.rs:632-705 | The method computes the specification, errors included; that leaves out no listed file (`CommitContext.UnflaggedContextHasEveryFile`) |
| `CommitContext.AppendFiles` | crates/codex-platform/src/git.rs:681-700 | The loop over untracked files with its early exits computes the specification |
| `StaleWindows.TouchedWindowsAreReported` | crates/codex-platform/src/computer_use_helper.rs:227-265 | After any marks and refreshes every window touched since its last refresh is reported; at most 64 ids are stored; the answer is exact until the first overflow; the capture kept is the last one with an untouched window |
| `StaleWindows.OverflowNeedsSixtyFive` | crates/codex-platform/src/computer_use_helper.rs:227-246 | The overflow comes exactly with the 65th distinct stale window |
| `StaleWindows.RefreshLasts` | crates/codex-platform/src/computer_use_helper.rs:248-265 | A refreshed window stays fresh until it is touched or the stored set is flushed |
| `StaleWindows.MappedPointIsCurrent` | crates/codex-platform/src/computer_use_helper.rs:267-306 | A point is mapped only through the last capture while its window is untouched, and lands in the window by plain scaling |
| `StaleWindows.PointsAreJudged` | crates/codex-platform/src/computer_use_helper.rs:267-306 | Exactly when a point is mapped, and when it is refused for a stale screenshot |
| `StaleWindows.ScaleStaysBelow` | crates/codex-platform/src/computer_use_helper.rs:293-306 | A point inside the capture maps inside the window |
| `StaleWindows.ScaleIsMonotone` | crates/codex-platform/src/computer_use_helper.rs:293-306 | Scaling keeps the order of points |
| `StaleWindows.ScaleRoundsDown` | crates/codex-platform/src/computer_use_helper.rs:293-296 | Scaling is division rounded down |
| `StaleWindows.AccessibilityClient.MarkUserInput` | crates/codex-platform/src/computer_use_helper.rs:227-246 | The new set, flag and capture |
| `StaleWindows.AccessibilityClient.ClearUserInput` | crates/codex-platform/src/computer_use_helper.rs:256-265 | The new set |
| `StaleWindows.AccessibilityClient.RememberCapture` | crates/codex-platform/src/computer_use_helper.rs:215-225 | The new set and capture |
| `EscapeMonitor.InterruptsTakeTheSampledTurn` | crates/codex-platform/src/computer_interruption.rs:52-95 | With fewer than 2^64 generation changes, in any interleaving each interruption takes the turn of the sampled generation after an earlier sample of it saw the key up, at most once a generation |
| `EscapeMonitor.FreshPressIsTaken` | crates/codex-platform/src/computer_interruption.rs:66-82 | In every run: with a turn armed and the key seen up in its generation, a poll that finds it down interrupts that turn and disarms it |
| `EscapeMonitor.DisarmingIsExact` | crates/codex-platform/src/computer_interruption.rs:112-145 | Disarming a turn that is not armed changes nothing; the armed one, or any, begins a generation without a turn |
| `EscapeMonitor.StalePressIsDropped` | crates/codex-platform/src/computer_interruption.rs:72-82 | A press sampled before the generation changed interrupts nothing |
| `EscapeMonitor.JustifiedIffBelowWrap` | crates/codex-platform/src/computer_interruption.rs:52-82 | All runs of at most so many changes are justified iff the number is below 2^64 |
| `EscapeMonitor.HeldKeyInterrupts` | crates/codex-platform/src/computer_interruption.rs:52-70 | The run of 2^64 changes in which a held key interrupts |
| `EscapeMonitor.StepKeepsInv` | crates/codex-platform/src/computer_interruption.rs:52-145 | Every step of monitor and callers keeps the invariant |
| `EscapeMonitor.InterruptionMonitor.PollKey` | crates/codex-platform/src/computer_interruption.rs:66-74 | One poll: a new generation resets the edge, otherwise a fresh press is looked for |
| `EscapeMonitor.InterruptionMonitor.TakeTurn` | crates/codex-platform/src/computer_interruption.rs:72-82 | Takes the turn iff its generation is still the observed one |
| `EscapeMonitor.InterruptionMonitor.ArmTurn` | crates/codex-platform/src/computer_interruption.rs:112-126 | A new generation with that turn |
| `EscapeMonitor.InterruptionMonitor.DisarmOne` | crates/codex-platform/src/computer_interruption.rs:135-145 | Disarms only the named turn |
| `EscapeMonitor.EscapeEdge.Observe` | crates/codex-platform/src/computer_interruption.rs:390-394 | Reports the key going down, once |

## Left out

- Processes, job objects, sockets, pipes, Windows UI Automation, the overlay, notifications and screen capture: foreign calls.
- JSON, base64, JPEG, URL and XML parsing: library code. A message of the bridge is any value with a rendering that parses back; a message of the app server is already decoded.
- The debugging protocol: requests to the browser succeed, and a failed one is taken to end the session. The agent's calls in fact survive such a failure, and an expired approval is cleared before downloads are disabled (`browser.rs:3525-3529`).
- Site permissions, tab lookups and URL checks before an agent's download approval: one-branch checks, taken as passed.
- The typed request wrappers, the `validate_*` functions and the waiting caller's own timeout in `app_server.rs`.
- `MAX_PENDING_REQUESTS` and the queue capacities come from crates that are not part of this model; they are parameters of `RouterSystem`. The byte limit is one too, and a frame over the frame limit is a protocol error.
- The steps at the head of the router loop (expiry, collecting and publishing drops) may come in any order and any number of times between two messages; the code does them in one order before each.
- A reply whose caller has gone, and closing the child's stdin on shutdown.
- Paths and names of git output are kept as bytes; the code decodes them lossily afterwards. Only ASCII white space separates the branch counts.
- The length of session identifiers is counted in characters, not in UTF-8 bytes.
- Escaping of the path in a diff header and the lossy decoding of git's output are functions that yield valid UTF-8; the decoding is also taken to be no shorter than its input where that matters, since each replacement character has three bytes.
- The byte bound for `uncommitted_diff` and `branch_diff`: their first piece does not go through `push_bounded_text` (`git.rs:394`, `git.rs:450`), so it does not hold.
- Interrupted and failing reads of the line reader and of the bridge client, and the end of the peer's stream: they end the call with what it has.
- Removal of staging directories: all downloads of the user share one (`browser.rs:3571`, `browser.rs:3369`), so isolation between them does not hold.
- Download history, notifications to the agent and events to the UI: their one-slot and bounded channels may drop them.
- The set-up of the browser starts with a blank target; navigation, titles and loading state of a tab are left out, as are the surface visibility and cached expressions.
- Numbers of tabs are unbounded; the code's counter saturates at 2^64 - 1. Contexts have non-empty identifiers, as the agent's and the UI's commands check (`browser.rs:1032`).
- The report of other user input (`PhysicalInputEdge`), and the delivery of an interruption, whose channel may be full (`computer_interruption.rs:80`).
- `PendingCdpEvents` and the cache of agent expressions: bounded queues that would only add easy members.
- RouterSafety.LossIsAnnounced: holds below counter saturation; a saturated counter forgets by design.
- EscapeMonitor.InterruptsTakeTheSampledTurn: needs fewer than 2^64 generation changes; the exact bound is proved.
