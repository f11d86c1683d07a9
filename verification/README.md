# Message delivery: cursors, acknowledgements and replay

The program pulls chat and mail messages for its users, hands them to an analysis that may fail, and
moves a cursor (or marks a message processed) once a message needs no further attention. This project
models the four delivery pipelines, one claim protocol on a database row, and two data-level
algorithms, and proves that nothing is lost, handled twice, or reported clean when it was not. Where the
code does not meet such a promise, a lemma gives a concrete input, and another says exactly when it does.

**Slack channels.** `SlackTime` relates timestamps as strings to instants and bounds the scan window.
`SlackScan` is the paginated history read, `SlackPass` collects one pass from the smallest cursor,
`SlackCursor` the tracker of held channels and the cursor writes, `SlackAdapters` the adapter that turns
failed acknowledgements into held channels, `ChannelDriver` the driver shared by the chat channels, and
`SlackWholePass` puts them together, from the fetch through the analysis to the commit and the stamp.
`SlackRuns` puts passes side by side: every cursor read, history listing, read of a thread's replies,
classification, acknowledgement, commit and restart is a step of its own, any number of passes overlap, and
no-loss is an invariant of all runs. `SlackWindows` says how far back a fetch reaches, from the cursors that were
stored meanwhile, `SlackTraces` what a pass may commit and stamp, from the steps it took, and `SlackRunWitnesses`
holds the runs in which a promise fails.

**Slack threads.** `SlackThreads` is the reply scan, its dispatch, one subscriber sweep after sweep, and the
shortcut that skips fetches. `ThreadTable` is the grouping, the dispatch with the registrations that its analysis
makes, the row writes of both tiers, and convergence. `ThreadGroups` runs all subscribers of a thread together, from
any cursors, with sweeps and registrations in any order, `ThreadActivity` follows the activity stamp that decides
when a thread times out, and `ColdTier` runs the passes over closed threads.

**WhatsApp.** `ChatBuffers` is the bounded buffer with Go's slices over shared arrays; `ChatBufferRuns`
accounts for every message over whole runs; `WaReplay` regroups logged rows; `WaProtocol` is the durable log
with drains, acknowledgements, crashes and replays as interleaved steps; `WaHolds` says when the replay query
returns a row, `WaAccounts` that accounts do not disturb each other, `WaDelivery` what a replay cycle
delivers, `WaRounds` how many cycles a message can wait, and `WaStarvation` when that number has no bound.

**Gmail.** `GmailScan` is one scan: the paginated listing, the filter pipeline with its processed marks, the
batches and the cursor, for listings that may name a mail twice. `GmailMarks` says which mails a scan marks, and
why, and `GmailCycles` runs scan after scan.

**The rest.** `FilterRescue` is the compare-and-swap claim on a filtered row, `FilterLabels` says which label the
row ends up with, `TaskFolding` is the folding of several asks of one message in front of a unique key,
`TruncationRepair` and `TruncatedArray` are the repair of a report that hit the output limit.

Outside answers (AI, noise filter, enrichment, API pages, clocks) are parameters, so every statement holds for
all of them. Instants are microseconds (Slack) or seconds (mail, WhatsApp); a missing cursor is 0.

## Where the code and its promises part

- A Slack candidate whose user lookup fails, or whose room panics, is neither analysed nor held, and the
  cursor passes it (`DroppedCandidateIsLost`).
- Replies are read after the history page. A root message posted in between can be older than one of them, and
  the cursor passes it for good, with no other pass around (`LateRootIsLost`). A commit is safe if and only if
  every dropped candidate of the pair and every such late root below the committed position is settled
  (`CommitSafeIff`).
- A thread whose replies cannot be read is only logged, and the pass goes on, stores the newest message it read and
  stamps success: a reply of a listed root is then passed, and no later listing reads it (`UnreadReplyIsLost`). A commit leaves a reply at
  or below it undone only if the reply was not read, was dropped or met a cursor at or past it
  (`ReplyIsDoneUnless`, `ReplyCommitIff`).
- The cursor is read again for every message, so an overlapping pass can make a pass skip its newest messages,
  stamp success, and leave an older cursor behind (`StampOverOlderCursor`). The position stored by a stamped pass
  is the newest message it fetched if and only if the cursor was below that message when it was classified
  (`StampIsAtPageMaximumIff`).
- The map from message id to channel is keyed by id alone: it is faithful exactly when no id occurs in two
  channels (`ChanOfIsFaithfulIff`), and otherwise a failure may hold the wrong channel.
- The fetch shortcut decides for the first subscriber of a group alone, so it can skip a reply that another one
  never got (`ShortcutCanStarveAMember`); a skip is idle for all if and only if the newest reply is not beyond
  the group's smallest cursor (`GroupSkipIsIdleIff`).
- The page of a thread starts at the group's smallest cursor and holds a bounded number of replies, and everybody
  is set to where the scan stopped. A subscriber is moved back, and handed replies again, if and only if it is
  more replies ahead of the smallest cursor than the page holds (`TruncatedPageMovesMemberBack`,
  `HotPassMovesBackIff`, `GroupIsServedOnce`).
- Registering a message of a tracked thread sets its row's cursor to that message: everything after it is handed
  over once more, and what lies between an older cursor and it is never handed over (`RegistrationHandsAgain`).
- A sweep analyses its replies without a tracker, so a reply whose analysis fails is not tried again: later sweeps
  hand over only what is newer (`HandedOnlyOnce`).
- The sweep's own analysis registers the message of every item it extracts. An unresolved sweep writes over that; a
  resolving one leaves the closed row at the last registered message (`SweepLeavesCursor`).
- The comments at scanner/scanner_slack_threads.go:100-103 and 226-229 promise that the cold tier never makes a row
  active again. Its bookkeeping does not, but the analysis it dispatches to registers messages, and that sets the row
  active (`ColdPassReactivates`). A pass reactivates a row if and only if its scan is unresolved and an item was
  extracted from a reply handed to the row's member (`ReactivatedIff`, over many passes `RunColdPasses`).
- Selecting rows for replay and reinserting them are two steps, so a row processed in between is replayed
  (`ProcessedRowIsRequeued`); it stays unprocessed exactly when nothing acknowledged it between
  (`RequeueIsCleanIffNoAckBetween`).
- A replay cycle does not always deliver a due row: 997 rows that are not younger, 149 earlier rows of its chat, or
  200 later messages in the buffer keep it out, and nothing else does (`DueRowIsDeliveredIff`). Counting only
  rounds in which the buffer has room for a cycle, its wait is bounded all the same (`WaitIsBounded`); without room
  it has no bound, although all newer messages are logged, scanned and acknowledged (`WaitWithoutRoomIsUnbounded`).
- A message id is unique over all accounts, so a message is logged for an account if and only if no other account
  logged it before (`LoggedForAccountIff`).
- A pop counts the attempt and a failed acknowledgement does nothing (scanner/scanner_whatsapp.go:45-57,
  store/wa_messages_store.go:77-84). The comment at store/wa_messages_store.go:92-93 speaks of counting failed
  scans, but only malformed payloads take that path; the model follows the code.
- The manual label is written without a guard and can overwrite a rescue in progress, after which a second
  rescue succeeds (`ManualLabelAllowsTwoRescues`). Exclusion holds all along a run if and only if no
  manual label of the run lands on a claim in force (`ExclusiveAlongIff`).
- Folding keeps every ask of a message that has no row yet; when the message already has one, an ask is stored if
  and only if that row shows it (`FoldedInsertKeepsAskIff`).
- A truncated array is repaired to a printed prefix at every cut exactly when no brace closes inside the first
  object and no later object contains a brace followed by a comma (`RepairedCutsPrintPrefixIff`), so a string
  value containing such a pair defeats it (`StringWithBraceIsCutWrong`). The fences are balanced for every
  text, with no bound on runs of backticks.
- Holding the Gmail cursor lets a mail that failed be read again (`FailedMailIsRetried`). But while no cursor is
  stored the window slides, so a mail that keeps failing can grow a week old and drop out (`FailingMailIsMissed`).
- The listing stops at a thousand mails and reports success (`FetchRecentEmails`), so the cursor can pass a mail that
  no listing named (`OverfullWindowLosesAMail`). With fewer than a thousand mails before the last page the listing is
  complete (`ListCycle`), and no mail of such a cycle is passed. A mail that was once in a window is missed later if and only if it is
  unprocessed and either had grown a week old before a first cursor was stored or was passed in this way
  (`RunScans`).
- A listing that names one mail twice lets the envelope step mark it processed before its analysis, and a failed
  analysis then loses it (`RepeatedMailIsLost`). A mail handed to the analysis is marked before it if and only if the
  list names it again after the place where its envelope was new (`MarkedBeforeAnalysisIff`).

## Model

| member | source | states |
|---|---|---|
| SlackRuns.NoLoss | scanner/scanner_slack_cursor.go:73-110 | over every run of overlapping passes, posts, failures and restarts, with replies read after the listing, in which commits are clean, each root message at or below a stored cursor was classified away, acknowledged ok, or lay before a fetch's window, although the cursor may move backwards |
| SlackRuns.RecentMessagesAreDone | scanner/scanner_slack.go:250-268 | in runs where every user is found, no panic is swallowed and no root posted since the listing is older than a reply read after it, each root message at or below a stored cursor and less than a day old was classified away or acknowledged ok |
| SlackRuns.CommitSafeIff | channels/slack.go:333-379 | a commit keeps no-loss if and only if every candidate of the pair that no acknowledgement covered, and every root posted after the listing at or below the committed position, has been settled some other way |
| SlackRuns.CommitCovers | scanner/scanner_slack.go:284-299 | when a closed pass stores the newest message it classified, every older root message of the channel is settled, by snapshot completeness, skips against current cursors, acknowledgements and holds |
| SlackRuns.ReplyIsDoneUnless | channels/slack.go:366-376 | in any run, when a closed pass commits a cursor, a reply of the channel is done unless the pass did not read it, left it without an acknowledgement, or met a cursor at or past it |
| SlackRuns.ReplyCommitIff | channels/slack.go:366-376 | in any run, a commit leaves no reply at or below it unsettled if and only if every reply that the pass passed over in one of these three ways is settled |
| SlackRuns.FetchCompletes | scanner/scanner_slack.go:212-220 | listing from the smallest of the cursors that were read leaves nothing between any of them and the page that is neither fetched nor before the window |
| SlackRuns.StampMeansClean | scanner/scanner_slack.go:139-150 | in any run, a last_success stamp implies that the history of every channel was listed, no group of the user was acknowledged as failed, the newest classified message of every channel is stored and everything classified and not dropped is done; when commits are clean, every fetched root is settled |
| SlackRuns.StampIsAtPageMaximumIff | scanner/scanner_slack.go:284-299 | in any run at all, a stamped pass stored the newest message it fetched from a channel if and only if the cursor was below that message when it was classified |
| SlackRuns.SmoothRunIsClean | scanner/channel_adapter.go:89-99 | a run in which no user lookup fails, no panic is swallowed and replies are read before an older root is posted satisfies the condition of NoLoss |
| SlackRuns.RunExcusesOnlyOld | scanner/scanner_slack.go:255-268 | only messages more than 24 hours old are ever left before a window |
| SlackRuns.FetchExcusesOnlyPastCap | scanner/scanner_slack.go:242-248 | a listing from a smallest cursor that exists leaves only messages past the 29-day cap before its window; FetchReachesBack ties that cursor to the stored ones |
| SlackWindows.FetchReachesBack | scanner/scanner_slack.go:250-282 | when every user of a pass had a stored cursor of the channel from before its start up to the fetch, whatever other passes stored meanwhile, the fetch leaves before its window only what is past the 29-day cap, and lists every root message inside the cap that was beyond some user's stored cursor all along |
| SlackWindows.NoLossInsideCap | scanner/scanner_slack.go:242-282 | so in clean runs with stored cursors each root message at or below a cursor and inside the cap was classified away or acknowledged ok, unless it had been left before a window earlier |
| SlackTraces.CommitIff | scanner/scanner_slack_cursor.go:102-110 | in any run, a pass may write a user's cursor of a channel if and only if it ended before its context did, classified a message there that was beyond the cursor stored at that moment, had no such group acknowledged as failed, and has not written it yet |
| SlackTraces.StampIff | scanner/scanner_slack.go:139-150 | in any run, a pass may stamp a user if and only if it ended, no listing of it failed, its context is not done, no group of the user was acknowledged as failed and every cursor with news is written or held |
| SlackTraces.DoneIff | scanner/scanner_slack.go:284-299 | over any run, a message is done for a user if and only if some pass acknowledged it ok, or classified it, beyond the cursor stored at that moment, as nothing to analyse |
| SlackTraces.ReplyReadIff | channels/slack.go:366-376 | in any run, a pass holds exactly the replies that its reads returned |
| SlackTraces.RestartResumes | store/scan_store.go:123-138 | after any run, a restart resumes every cursor where the run last saved it, or at none, and ends all passes |
| SlackRunWitnesses.DroppedCandidateIsLost | scanner/scanner_slack.go:397-401 | a full run in which a failed user lookup lets the cursor pass an unanalysed candidate |
| SlackRunWitnesses.LateRootIsLost | channels/slack.go:366-376 | a full run of one pass without drops in which a root posted between the listing and the replies is passed by the cursor and by every later listing |
| SlackRunWitnesses.UnreadReplyIsLost | channels/slack.go:369-375 | a full run of one pass without drops or overlap in which a thread is not read, a reply of another thread moves the cursor past its reply, and no later listing names its root |
| SlackRunWitnesses.StampOverOlderCursor | scanner/scanner_slack.go:139-150 | a full run in which a pass that fetched a newer message and held nothing is stamped while the stored cursor is older |
| SlackRunWitnesses.CursorCanMoveBack | scanner/scanner_slack_cursor.go:102-110 | a full run in which an overlapping pass stores an older cursor, by a clean commit |
| SlackWholePass.ScanSlack | scanner/scanner_slack.go:120-151 | without overlap, each user's queue is exactly what is new and wanted in the fetched channels and, for a user that is found, acknowledged once and truthfully; each cursor becomes the maximum of its old value and everything fetched, exactly unless the fetch or a group failed or the context is done; exactly the users of a fully clean pass are stamped |
| SlackWholePass.QueuedIff | scanner/scanner_slack.go:212-299 | when every user has a stored cursor, a root message of the channel is queued for a user if and only if a person wrote it in the last 29 days, it is beyond the user's own cursor and the user wants it |
| SlackWholePass.WithheldIff | scanner/scanner_slack_adapter.go:43-56 | with ids unique across a user's channels, a cursor is withheld if and only if an own candidate of the channel was in a failed group, and every candidate that a moving cursor passes was in a group with a terminal outcome |
| SlackPass.Collector.ClassifyAndCollect | scanner/scanner_slack.go:284-299 | one message changes exactly the candidates and newest positions of the users whose cursor it is beyond |
| SlackPass.Collector.AppendSlackCandidate | scanner/scanner_slack.go:301-306 | appends to one queue and leaves all others |
| SlackPass.TakeAllIs | scanner/scanner_slack.go:236-238 | a channel leaves a user exactly the unseen wanted messages, in order, and the largest unseen id, whatever the order of arrival |
| SlackPass.NewestUnseen | scanner/scanner_slack_cursor.go:93-100 | storing the newest unseen id is taking the maximum with the old cursor |
| SlackPass.NewestIsMaximum | scanner/scanner_slack_cursor.go:93-100 | that newest id bounds every message read and is one of them |
| SlackPass.ScanSingleSlackChannel | scanner/scanner_slack.go:212-240 | reads from the smallest cursor of the users; a failed fetch changes nothing |
| SlackPass.CollectSlackHistory | scanner/scanner_slack.go:195-210 | every channel is tried; fetchOK if and only if all were fetched; channels do not disturb one another |
| SlackPass.FetchedIff | scanner/scanner_slack.go:255-282 | when every user has a stored cursor, a pass reads a root message if and only if a person wrote it in the last 29 days and it is beyond the cursor of one of the users |
| SlackPass.FetchedOfNewUserIff | scanner/scanner_slack.go:270-282 | as soon as one user has no cursor, it reads exactly the root messages of people of the last day |
| SlackScan.ProcessHistoryMessages | channels/slack.go:333-379 | keeps the leading messages inside the window, humans only, with the replies of thread roots; reachedOld if and only if something older was met |
| SlackScan.GetMessages | channels/slack.go:287-322 | reading page by page and stopping at the window equals cutting the whole history at the window |
| SlackScan.FetchHandsOnIff | channels/slack.go:333-430 | on a newest-first history a fetch hands on exactly the messages of people inside the window, and the replies of people, attached to their root, in every thread that such a message starts and that was read without a failure |
| SlackScan.FetchNewThreadReplies | channels/slack.go:382-421 | reads a thread page by page; ok if and only if no page fails, and then the replies of people without the root itself; a failed page loses them all |
| SlackScan.FetchIsWindowFilter | channels/slack.go:340-353 | on a newest-first history the early exit is the filter: a root message is handed on if and only if a human wrote it and it is not older than the window |
| SlackScan.FetchRefinesPage | channels/slack.go:287-322 | the paginated fetch yields exactly the root messages of the protocol's listing step |
| SlackCursor.HeldTracker.Hold | scanner/scanner_slack_cursor.go:42-52 | adds exactly one held pair |
| SlackCursor.HeldTracker.HasHeld | scanner/scanner_slack_cursor.go:64-71 | true if and only if some channel of the user is held |
| SlackCursor.UpdateChannelCursor | scanner/scanner_slack_cursor.go:93-100 | keeps the maximum for one pair and changes no other |
| SlackCursor.ApplySlackScanResults | scanner/scanner_slack_cursor.go:77-91 | writes nothing when the context is done, otherwise exactly the pairs that are not held |
| SlackCursor.UpdateSlackCursors | scanner/scanner_slack_cursor.go:102-110 | writes every entry of the nested map and nothing else |
| SlackCursor.MarkSlackScanSuccess | scanner/scanner_slack_cursor.go:17-28 | stamps exactly the users without a held channel and touches no cursor |
| SlackAdapters.MergeChannels | scanner/scanner_slack_adapter.go:28-41 | a room holds exactly the messages of the channels of its name, every message is conserved, and the id map names a channel that carries the id |
| SlackAdapters.ChanOfIsFaithfulIff | scanner/scanner_slack_adapter.go:36-38 | in every iteration order, the id map names each message's own channel if and only if no id occurs in two channels |
| SlackAdapters.SlackAdapter.PopMessages | scanner/scanner_slack_adapter.go:61-67 | hands the batch out once |
| SlackAdapters.SlackAdapter.AckScanned | scanner/scanner_slack_adapter.go:47-56 | a failed group holds exactly the channels its ids map to; a success or a missing tracker changes nothing |
| SlackAdapters.ProcessSlackCandidates | scanner/scanner_slack.go:396-406 | every user whose lookup succeeds has every candidate acknowledged once, and the tracker ends with exactly the channels of failed groups |
| SlackAdapters.HeldIsExact | scanner/scanner_slack_adapter.go:43-56 | with unique ids, a channel is held if and only if one of its own candidates was in a failed group |
| SlackAdapters.UnheldMeansSettled | scanner/scanner_slack_adapter.go:43-56 | every candidate of a channel that is not held was in a group acknowledged ok with a terminal outcome |
| SlackAdapters.SharedIdHoldsWrongChannel | scanner/scanner_slack_adapter.go:36-38 | with an id shared by two channels, a failure in one can leave it unheld |
| ChannelDriver.GroupMessagesByTime | ai/core/analyzers.go:141-161 | the groups concatenate to the input, are non-empty, at most 29 long, close in time, and end only where full or at a gap |
| ChannelDriver.ProcessChannelGroup | scanner/channel_adapter.go:248-316 | every exit acknowledges the group once, ok exactly for unbypassed noise, a successful analysis or a usable fallback |
| ChannelDriver.ProcessChannelRoom | scanner/channel_adapter.go:105-131 | the room's messages are acknowledged once, as their time groups in order, or all together as failed when the client is missing |
| ChannelDriver.ScanChannel | scanner/channel_adapter.go:79-103 | one scan acknowledges every popped message exactly once, over all rooms, groups and exits, each room by itself in its time groups, and ok only after a terminal outcome |
| ChannelDriver.AckedOnce | scanner/channel_adapter.go:64-77 | no message is acknowledged by two groups |
| SlackTime.StringOrderIsTimeOrder | channels/slack.go:281-285 | comparing well-formed ids as strings is comparing the instants they parse to; the empty cursor is below all |
| SlackTime.WindowBounds | scanner/scanner_slack.go:255-268 | the window starts between 29 days and 24 hours back, and at or before the cursor exactly unless the cursor is past the cap |
| SlackTime.WindowIsNoWider | scanner/scanner_slack.go:255-268 | the window starts at the latest instant that covers the cursor, a day and no more than 29 days; a day back without a cursor |
| SlackTime.GetMinLastTS | scanner/scanner_slack.go:270-282 | the true minimum, or none as soon as one user has no cursor |
| SlackTime.WindowCoversEveryUser | scanner/scanner_slack.go:255-282 | the window covers every user's cursor when all have one inside the cap |
| SlackThreads.ScanThreadReplies | scanner/scanner_slack_threads.go:379-402 | for replies in any order: resolved if and only if a check mark was read, the newest reply read, and the newest reply of a person read before any check mark, neither older than what was stored |
| SlackThreads.ScanIsMeant | scanner/scanner_slack_threads.go:379-402 | the function that the sweeps use means the same |
| SlackThreads.ScanAscending | scanner/scanner_slack_threads.go:384-401 | on an ascending page the scan stops at a check mark or reaches the last reply |
| SlackThreads.ScanNeverMovesBack | scanner/scanner_slack_threads.go:379-402 | the scan's cursors never fall below its inputs |
| SlackThreads.CollectThreadCandidates | scanner/scanner_slack_threads.go:267-293 | hands over exactly the unseen non-bot replies up to the resolving one, in order |
| SlackThreads.DispatchedIff | scanner/scanner_slack_threads.go:267-293 | a reply is handed over if and only if it is beyond the cursor, not after the resolving one, and neither has a bot id nor the bot subtype |
| SlackThreads.DispatchedIsBetween | scanner/scanner_slack_threads.go:270-279 | what a scan hands over is what was written between the cursor and where it stopped |
| SlackThreads.PageServes | scanner/scanner_slack_threads.go:184-216 | one truncated page serves exactly the stretch of the thread that the cursor moves over |
| SlackThreads.SweepsHandOverExactlyOnce | scanner/scanner_slack_threads.go:184-224 | for one subscriber fetched from its own cursor: over any number of hot sweeps with truncated pages until resolution it is handed exactly the non-bot replies in (initial cursor, current position], in order, each once |
| SlackThreads.PageMovesBackIff | scanner/scanner_slack_threads.go:186-204 | an unresolved scan from the smallest cursor stops below a member's cursor if and only if the member is more replies ahead than the page holds |
| SlackThreads.BuildChannelActivity | scanner/scanner_slack_activity.go:68-86 | indexes exactly the tracked roots seen in the history, with the latest reply and the reply count of the last listing of each |
| SlackThreads.WholePageIsIdleIff | scanner/scanner_slack_threads.go:379-402 | reading a whole thread changes nothing if and only if the cursor has reached its newest reply |
| SlackThreads.ShortcutRefinesFullScan | scanner/scanner_slack_activity.go:102-121 | when a fetch is skipped, the full scan would have resolved nothing, moved nothing and handed over nothing |
| SlackThreads.SkippedIffIdle | scanner/scanner_slack_activity.go:102-121 | a thread that the history names and that was active in the last week is skipped if and only if the full scan would have resolved and moved nothing |
| SlackThreads.SkippedWithoutCursorIff | scanner/scanner_slack_activity.go:110-121 | without a cursor exactly the threads that the history lists without a reply are skipped |
| ThreadGroups.GroupSkipIsIdleIff | scanner/scanner_slack_threads.go:83-90 | when the first subscriber's rows skip the fetch, reading the thread would move nothing, resolve nothing and hand over nothing for every subscriber of the group if and only if the newest reply is not beyond the group's smallest cursor |
| ThreadGroups.ShortcutCanStarveAMember | scanner/scanner_slack_threads.go:83-90 | a group of two rows in which the decision for the first skips a reply that the second never got |
| ThreadGroups.GroupIsServedOnce | scanner/scanner_slack_threads.go:184-224 | over any number of hot sweeps of a group from any cursors, each member is handed exactly the non-bot replies in (its cursor, current position], in order, each once, unless the first sweep moves it back; then everything from where that sweep stopped |
| ThreadGroups.MemberIsHanded | scanner/scanner_slack_threads.go:206-216 | what a member gets is the stretch from its own cursor to where the first sweep stopped and then exactly what every other member gets |
| ThreadGroups.EqualGroupIsServedOnce | scanner/scanner_slack_threads.go:206-216 | once the cursors are equal every member is handed exactly what was written since, each reply once |
| ThreadGroups.MovesBackIs | scanner/scanner_slack_threads.go:186-204 | a sweep takes a member below its own cursor if and only if it is unresolved and the member is more replies ahead than the page holds |
| ThreadGroups.SweepGroup | scanner/scanner_slack_threads.go:184-224 | one selection, page read, hand-out to every member with the registrations of its analysis, and row write on the table is one sweep of the group |
| ThreadGroups.HotSweeps | scanner/scanner_slack_threads.go:79-98 | the loop of sweeps on the table, with registrations by each sweep's own analysis and others between the sweeps, runs the group protocol until the sweep that resolves the thread |
| ThreadGroups.SweepLeavesCursor | scanner/scanner_slack_threads.go:218-224 | an unresolved sweep leaves a member's row where the scan stopped, whatever its analysis registered; a resolving one leaves it at the last message registered for it, which is at or before that point, and at the selected cursor only if none was |
| ThreadGroups.SweepsAreRun | scanner/scanner_slack_threads.go:79-98 | a run of sweeps on the table with any registrations of their own analysis hands over exactly what the group protocol without them does |
| ThreadGroups.RegistrationHandsAgain | store/scan_store.go:318-330 | after a registration the member is handed everything after the registered message: what lies up to its old cursor a second time, and what lies between an older cursor and the message never |
| ThreadGroups.HandedOnlyOnce | scanner/scanner_slack.go:408-419 | whatever a member is handed after a sweep is newer than where the sweep stopped, and what the sweep handed it is not, so a failed analysis is not repeated |
| ThreadActivity.SweepsKeepUp | scanner/scanner_slack_threads.go:389-393 | over any sweeps of a group until it is resolved, no activity stamp falls behind what a person wrote in the stretch that was read, and a stamp is an old one or the time of a person's reply |
| ThreadActivity.RegisterKeepsUp | db/slack_threads.sql.go:157-167 | a registration keeps that, too |
| ThreadActivity.TimeoutFollowsPeople | scanner/scanner_slack_threads.go:413-423 | after any sweeps, a thread in which a person wrote within the last seven days, as far as it was read, is not timed out; one in which nobody did, and whose stamps were older, is |
| ThreadActivity.TimedOutIsNotSkipped | scanner/scanner_slack_activity.go:102-105 | a thread that is timed out is never skipped, so it is closed |
| ThreadTable.GroupThreadsByKey | scanner/scanner_slack_threads.go:136-150 | one group per thread, each with all its subscribers in order |
| ThreadTable.MinLastTS | scanner/scanner_slack_threads.go:186-191 | the smallest non-empty cursor of the group; empty only if all are |
| ThreadTable.MinOfIsLeast | scanner/scanner_slack_threads.go:186-191 | that cursor is at most every non-empty cursor and is one of them |
| ThreadTable.Table.Upsert | db/slack_threads.sql.go:157-167 | leaves the row active with the new cursors |
| ThreadTable.Table.UpdateThreadStatusGroup | scanner/scanner_slack_threads.go:295-323 | whatever the rows hold by now: resolved closes every member's row with its cursors kept, otherwise every member that differs from the scan is stored with its cursors; no other row changes |
| ThreadTable.Table.ColdWrites | scanner/scanner_slack_threads.go:235-246 | the bookkeeping of the cold tier after its dispatch creates no row and changes no status but to close: resolved closes exactly the group's rows, otherwise exactly the members that differ from the scan get its cursors |
| ThreadTable.FetchAndDispatch | scanner/scanner_slack_threads.go:184-216 | one scan from the smallest cursor, which means what ScanThreadReplies says; each member is handed exactly what is new to it, and the table changes by exactly the registrations of the items extracted from that |
| ThreadTable.NamedIff | scanner/scanner_slack_adapter.go:172-180 | a row is registered by a dispatch if and only if a saved item names a reply that was handed to a member of its key and kept |
| ThreadTable.RegsAreAddressed | store/scan_store.go:318-330 | whatever a dispatch registers has a channel and a thread, the member's own or, without one, the message itself |
| ThreadTable.AfterRegsIs | db/slack_threads.sql.go:157-167 | registrations leave every named row active with both cursors at the last message named, and change no other row |
| ThreadTable.NamedMoves | scanner/scanner_slack_threads.go:226-247 | an unresolved pass writes over every registration that its own dispatch made |
| ThreadTable.HotPass | scanner/scanner_slack_threads.go:218-224 | scan, dispatch with its registrations, and row writes; after an unresolved pass over rows as selected all members hold the scan's cursors whatever was registered, with the activity stamp at the newest reply of a person read or where it was, a resolved pass closes exactly the group's rows, and what is written is said for rows that changed since, too |
| ThreadTable.HotPassMovesBackIff | scanner/scanner_slack_threads.go:186-224 | an unresolved pass moves no member of a group back if and only if no member is more replies ahead of the smallest cursor than the page holds |
| ThreadTable.TruncatedPageMovesMemberBack | scanner/scanner_slack_threads.go:186-204 | from unequal cursors a truncated page moves a member back below a reply it was handed |
| ColdTier.ProcessColdGroup | scanner/scanner_slack_threads.go:226-247 | a whole cold pass, fetch failure and dispatch included: a row is active afterwards if and only if the pass does not close it and it was active before or the dispatch registered it; all other writes are those of the bookkeeping |
| ColdTier.ReactivatedIff | scanner/scanner_slack_threads.go:226-247 | a cold pass makes a row active that was not if and only if its scan is unresolved and an item was extracted from a reply handed to the row's member |
| ColdTier.RunColdPasses | scanner/scanner_slack_threads.go:99-117 | over any number of cold passes on any stale selections, a row that was not active is active at the end if and only if some pass registered it and neither that pass nor a later one resolved its thread; a row that no pass registers is never hot-selected |
| ColdTier.ColdPassReactivates | scanner/scanner_slack_threads.go:99-103 | a closed row that the cold query selects is back in the hot selection after one cold pass over one late reply |
| ThreadTable.HotAndColdAreDisjoint | db/slack_threads.sql.go:30-85 | no row is selected by both queries in one state, and one is by one of them if and only if it names its thread and is active, or is closed in a channel while a task of its thread is open |
| ChatBuffers.ChatBuffer.Buffer | channels/msgbuffer.go:21-32 | appends and keeps the newest 200, for this chat only, although arrays are appended to in place |
| ChatBuffers.ChatBuffer.Replay | channels/msgbuffer.go:37-76 | the result is a time-ordered arrangement of the buffer and the unseen inputs cut to the newest 200; the count is taken before the cut |
| ChatBuffers.ChatBuffer.Pop | channels/msgbuffer.go:78-93 | hands over every non-empty chat of the user and forgets them; the buffer keeps no reference to their arrays |
| ChatBuffers.ChatBuffer.Drop | channels/msgbuffer.go:95-99 | forgets the user's chats only |
| ChatBuffers.ReplayKeepsNewest | channels/msgbuffer.go:50-69 | replay keeps a part of old and unseen messages, all of them if they fit, drops nothing newer than anything kept, and keeps ids unique |
| ChatBuffers.ReplayTwiceIsNoOp | channels/msgbuffer.go:52-62 | the same replay again changes nothing when nothing was cut |
| ChatBuffers.UnseenIsNew | channels/msgbuffer.go:44-59 | deduplication adds each unseen id once and leaves none out |
| ChatBufferRuns.RunsConserve | channels/msgbuffer.go:21-99 | over any run every message put in is buffered, in exactly one pop, or cut |
| ChatBufferRuns.PoppedAtMostOnce | channels/msgbuffer.go:78-93 | a message put in once comes out of at most one pop, and not while it is buffered |
| ChatBufferRuns.BetweenPops | channels/msgbuffer.go:27-31 | after a pop or a drop the list is the last min(n, 200) pushes in order, and only a pop handed over what was there before |
| ChatBufferRuns.PopThenCall | channels/msgbuffer.go:21-99 | popped slices read the same after any later calls |
| WaReplay.GroupReplayableByChat | scanner/wa_replay.go:73-92 | kept, malformed and deferred counts sum to the rows; each chat keeps exactly its oldest 149 parsable rows in order, flagged as replay |
| WaReplay.KeptFitsEmptyBuffer | scanner/wa_replay.go:63-66 | what a cycle keeps for a chat goes into an empty buffer without loss |
| WaDelivery.NothingIsSilentlyLost | scanner/wa_replay.go:36-61 | after any run at all, an uninterrupted replay cycle at any time from due to the end of the lookback leaves a captured, unprocessed row with fewer than three holds in the buffer if and only if 200 messages are not sorted after it, and it was there already or neither 997 rows nor 149 rows of its chat go first |
| WaDelivery.DueRowIsDeliveredIff | scanner/wa_replay.go:36-61 | after a cycle a due row is missing from the buffer if and only if 200 messages displace it, or it was not there and 997 rows no younger or 149 earlier rows of its chat were selected instead |
| WaDelivery.DueRowByCount | scanner/wa_replay.go:36-61 | in numbers: with 200 later messages in its chat a due row is out after the cycle; with at most 200 that are not earlier, itself included, it is in if it was there or kept |
| WaDelivery.DisplacedBounds | channels/msgbuffer.go:50-69 | however ties are sorted, 200 later messages displace a message and at most 200 that are not earlier do not |
| WaDelivery.CycleDelivers | scanner/wa_replay.go:53-56 | for every chat and id: buffered after the cycle if and only if it was buffered or among the chat's oldest 149 selected parsable rows, and fewer than 200 messages are sorted after it |
| WaDelivery.ReinsertedIff | channels/msgbuffer.go:37-76 | one reinsertion keeps an id if and only if it was there or reinserted and fewer than 200 messages are sorted after it |
| WaDelivery.SelectedOrCrowdedOut | db/wa_messages.sql.go:60-72 | a due row is kept for its chat if and only if it is not crowded out by 997 rows no younger nor deferred behind 149 of its chat, and the oldest selected row is no younger than it |
| WaDelivery.CycleKeepsRow | scanner/wa_replay.go:36-56 | a cycle that is not interrupted reinserts only unprocessed rows with attempts left, and changes a selected row by exactly the attempt charged to a malformed payload |
| WaRounds.WaitIsBounded | scanner/wa_replay.go:26-61 | however rounds of one cycle and one scan interleave with other traffic, a due row is left out of at most three rounds for every row of its account that is not younger, counting the rounds in which the chat of the oldest selected row has room for a cycle; WaitWithoutRoomIsUnbounded shows that the others cannot be counted |
| WaRounds.WaitIsPaidFor | store/wa_messages_store.go:77-97 | every round that leaves the row out uses up one remaining attempt of a row ahead of it |
| WaRounds.FirstIsCharged | scanner/scanner_whatsapp.go:27-44 | each round costs the oldest selected row an attempt, as malformed or because the scan drains and holds it |
| WaStarvation.WaitWithoutRoomIsUnbounded | scanner/wa_replay.go:26-61 | for any number of rounds, any pauses apart that fit the lookback, there is a run through all of them, in which every newer message is logged when it is received, after which the row is due, unprocessed, unchanged and still not in the buffer |
| WaProtocol.RowIsStable | store/wa_messages_store.go:77-97 | crashes, logouts, buffer cuts and failed scans leave a row as it was |
| WaProtocol.RetriesAreBounded | store/wa_messages_store.go:77-84 | every hold of a row by a scan uses up an attempt for good, and once the holds reach the attempts that remained, three for a new row, no query returns the row again |
| WaHolds.HeldRowIsLeftOut | store/wa_messages_store.go:77-84 | for 31 minutes after a scan takes an unprocessed row, no selection in any continuation of the run names it |
| WaHolds.StaleHoldIsReplayableIff | db/wa_messages.sql.go:60-72 | a row that a scan took and nothing took or acknowledged since is returned for its account if and only if the hold is 31 minutes old, the grace is over, attempts are left and the week is not |
| WaHolds.LoggedRowIsReplayableIff | db/wa_messages.sql.go:60-72 | a logged message that no scan takes or acknowledges is returned for its account if and only if its payload was captured and the clock is between 13 minutes after the logging and a week after the message |
| WaAccounts.AccountsAreApart | channels/msgbuffer.go:77-99 | over any run, an account's chats, popped messages and selected rows are decided by its own steps, the clock and the crashes |
| WaAccounts.ChatHoldsArrivals | channels/msgbuffer.go:22-35 | over any run, until it is popped, replayed into or lost with the process, a chat that was empty holds the newest 200 of what arrived in it, in order |
| WaAccounts.AcknowledgedOncePerDrain | scanner/scanner_whatsapp.go:27-57 | once a scan has acknowledged a message, it is held or acknowledged again only after another drain |
| WaProtocol.CapturedRowsParse | scanner/wa_replay.go:73-92 | in runs from an empty log every row that the replay query can return parses, so malformed rows come from elsewhere |
| WaProtocol.ProcessedIffAcked | scanner/scanner_whatsapp.go:45-57 | a row is processed exactly if some scan acknowledged it ok |
| WaProtocol.RequeueIsCleanIffNoAckBetween | scanner/wa_replay.go:36-56 | a selected row is unprocessed when reinserted if and only if nothing acknowledged it in between |
| WaProtocol.ProcessedRowIsRequeued | scanner/wa_replay.go:36-56 | a concrete run that reinserts a processed row |
| WaProtocol.LoggedForAccountIff | db/wa_messages.sql.go:13-23 | after an account logs a message and any run, the row belongs to that account if and only if no other account had logged the id before; otherwise no query of the account returns it |
| WaProtocol.OwnerNeverChanges | db/wa_messages.sql.go:13-23 | over any run a row keeps its account |
| GmailScan.Scanner.ScanGmail | channels/gmail_scan.go:42-73 | for every listing, with or without repeats: the cursor and the success stamp move exactly in a clean scan, to the newest mail read, and a clean scan leaves every listed mail processed; when the listing names no mail twice the scan is clean if and only if the listing was complete and every listed mail is processed; a mail that never loads stays unprocessed |
| GmailMarks.MarkedIff | channels/gmail_scan.go:161-219 | for a listing without repeats, a listed mail becomes newly processed in a scan if and only if it took a filter exit, repeats the envelope of an earlier mail, is noise that the filter answered without an error, is completed by its thread, or was sent to an analysis that succeeded |
| GmailScan.FetchRecentEmails | channels/gmail_scan.go:87-107 | reads page after page; it reports success with pages left exactly if the pages before the last hold a thousand mails or more, and failure exactly at the page that fails |
| GmailScan.Scanner.ProcessSingleEmail | channels/gmail_scan.go:161-219 | a mail is marked exactly on the filter exits, never on a failed fetch nor when it is handed on |
| GmailScan.Scanner.ParseNewEmails | channels/gmail_scan.go:109-145 | marks the filtered mails, hands on the rest, and is ok exactly if no mail that was still unread when its turn came failed to load, for listings with repeats too |
| GmailScan.Scanner.DeduplicateEnvelopes | channels/gmail_scan.go:291-311 | hands on the mails whose envelope is new and marks the others; when no mail occurs twice, exactly those that are not handed on are marked |
| GmailScan.MarkedBeforeAnalysisIff | channels/gmail_scan.go:303-307 | when a repeated mail reads the same text, a mail handed to the analysis is already marked processed if and only if the list names it again after the place where its envelope was new |
| GmailScan.DedupedKeepsEnvelopes | channels/gmail_scan.go:291-311 | deduplication keeps one mail of every envelope |
| GmailScan.Scanner.FilterGmailBatch | channels/gmail_scan.go:444-468 | marks exactly the mails that are noise without an error or completed by their thread, and keeps the rest: a filter error keeps the mail |
| GmailScan.UngatedIff | channels/gmail_scan.go:444-520 | a mail goes on to the analysis if and only if it is in the batch, the filter erred or did not call it noise, and its thread hook is off, has no class for it or did not complete |
| GmailScan.Scanner.ProcessBatch | channels/gmail_scan.go:345-388 | ok exactly if every mail of the batch is processed; a failed analysis leaves exactly the mails sent to it |
| GmailScan.Scanner.AnalyzeAndSaveEmails | channels/gmail_scan.go:313-342 | over all batches, ok exactly if every fetched mail is processed |
| GmailScan.FetchCoverage | channels/gmail_scan.go:119-142 | after a fetch stage without a failure everything listed is processed, filtered or handed on; when no mail is listed twice, only then |
| GmailScan.NewestIsListed | channels/gmail_scan.go:134-136 | the new cursor bounds every mail that was read and does not move back below the start of the query |
| GmailCycles.RunCycle | channels/gmail_scan.go:75-82 | after one cycle with any listing, at any later moment, a listed mail is neither processed nor inside the next window if and only if no cursor is stored, it is unprocessed and has grown a week old |
| GmailCycles.RunScans | channels/gmail_scan.go:32-66 | over any number of cycles of a growing mailbox, in which a mail may load, fail and be filtered differently each time and listings may repeat and omit mails, a mail that was inside some cycle's window is missed at a later moment if and only if it is unprocessed and either had grown a week old before a first cursor was stored or was left out by a listing whose cycle moved the cursor past it; a cycle with a complete listing passes nothing |
| GmailCycles.PassedMeansIncomplete | channels/gmail_scan.go:102-104 | only a cycle whose own listing reported success and left a match out passes a mail |
| GmailCycles.ListCycle | channels/gmail_scan.go:87-107 | a listing read page by page with fewer than a thousand mails before its last page is complete, so its cycle passes no mail; without a failed page it reports success, and it leaves pages unread exactly if a thousand mails come before the last page |
| GmailCycles.FailingMailIsMissed | channels/gmail_scan.go:75-82 | two cycles after which a mail that never loaded is unprocessed and outside every later window |
| GmailCycles.FailedMailIsRetried | channels/gmail_scan.go:59-66 | two cycles in which a mail fails to load, the cursor is held, and the next cycle processes the mail and moves the cursor |
| GmailCycles.RepeatedMailIsLost | channels/gmail_scan.go:303-307 | a cycle whose listing names a mail twice and whose analysis fails leaves the mail marked processed |
| GmailCycles.OverfullWindowLosesAMail | channels/gmail_scan.go:87-107 | a mailbox with a thousand newer mails in which the listing leaves an older one out, the cursor passes it and no later query finds it |
| FilterRescue.ExclusiveAlongIff | services/filter_feedback.go:38-64 | along any run, at most one rescuer owns the row in every state if and only if no manual label of the run lands on a claim in force |
| FilterRescue.RescuesAreBounded | services/filter_feedback.go:38-64 | over any run with any number of actors, the rescuers that hold the row or succeeded number at most the manual labels that landed on a claim, and one more while the row is labelled rescued; the labels of passed and dropped rows never mix |
| FilterRescue.AtMostOneRescue | db/filter_scores.sql.go:13-18 | so in a run in which no manual label lands on a claim, at most one rescuer is between claim and restore and at most one rescue succeeds |
| FilterRescue.StepKeepsInvIff | services/filter_feedback.go:38-64 | exclusion survives a step if and only if the step is not a manual label over a claim in force |
| FilterRescue.SuccessIsFinalIff | services/filter_review.go:129-151 | after a successful rescue the row stays rescued all along any run if and only if the run writes no manual label |
| FilterRescue.RestoreUndoesOwnClaim | db/filter_scores.sql.go:390-394 | in any run a restore writes the label that its own claim replaced or leaves the row alone, and unless a manual label landed on a claim it undoes its claim |
| FilterRescue.ConfirmAndClaimRespectEachOther | db/filter_scores.sql.go:35-39 | confirming never overwrites a claim, and a claim against an outdated label fails |
| FilterRescue.ManualLabelAllowsTwoRescues | db/filter_scores.sql.go:408-412 | a concrete run in which two rescues of one row succeed |
| FilterLabels.PassedRowLabelIs | db/filter_scores.sql.go:137-172 | over any run, a row that passed the filter carries what the first step about its task said: deleted for good, no task for good, or a task until its first deletion; without one it has no label |
| FilterLabels.LabelStaysIff | db/filter_scores.sql.go:13-44 | over any run, a label other than a rescue stays on a dropped row all along if and only if no confirmation, manual label or claim by a rescuer that loaded this label is among the steps; restores of failed rescues and outdated claims leave it alone |
| FilterLabels.ClaimsAreBounded | services/filter_review.go:153-174 | in any run a rescuer claims at most three times, and reports contention only after three claims |
| FilterLabels.ManualLabelFollowsListing | services/filter_feedback.go:38-64 | whoever writes a manual label listed the row earlier in the run, when it was a drop without a label |
| FilterLabels.AlreadyRescuedIsTrue | services/filter_review.go:153-163 | a rescuer answers that the row was rescued already only if it loaded it when it was labelled so |
| TaskFolding.FoldSameMessageNewItems | scanner/channel_adapter.go:364-390 | the loop over index maps computes Fold |
| TaskFolding.FoldConserves | scanner/channel_adapter.go:358-390 | at most one new item per message, every non-blank ask survives as title or subtask, other items keep their order |
| TaskFolding.FoldOnlyAppendsDistinctSubtasks | scanner/channel_adapter.go:364-390 | every item of the output is an input item, a new one the first of its message, with pairwise distinct new subtasks appended; each of these has the title and the assignee of the first item of that message to ask for it |
| TaskFolding.FoldIsIdempotent | scanner/channel_adapter.go:364-390 | folding twice is folding once |
| TaskFolding.FoldedInsertKeepsAskIff | db/messages.sql.go:71-76 | inserted through the unique key, a folded non-blank ask is stored if and only if its message had no row or that row shows it already |
| TaskFolding.InsertKeepsOld | db/messages.sql.go:71-76 | inserting never changes a row that exists |
| TaskFolding.UnfoldedInsertLosesAsk | db/messages.sql.go:71-76 | without folding the second ask is dropped in silence |
| TruncationRepair.RepairedFencesAreBalanced | ai/report.go:72-84 | for every text the repaired report has an even number of fences |
| TruncationRepair.RepairKeepsReport | ai/report.go:72-84 | for every text the repaired report ends with the notice, and the whole text is a prefix of it unless an odd fence opens an array; then everything before that fence is, and what the fence holds is the cut of the array |
| TruncatedArray.CutKeepsWholeItems | ai/report.go:88-97 | every cut of a cut-safe array is repaired to the print of its first objects, giving up at most one complete object |
| TruncatedArray.RepairedCutsPrintPrefixIff | ai/report.go:86-97 | every cut is repaired to a printed prefix if and only if the list is cut-safe |
| TruncatedArray.StringWithBraceIsCutWrong | ai/report.go:88-97 | a string value with a brace and a comma is cut wrongly |
| TruncatedArray.TruncatedReportIsRepaired | ai/report.go:72-84 | a report cut inside an open fence is delivered with that fence holding the first objects |

## Left out

- SlackRuns.NoLoss: speaks of root messages; ReplyIsDoneUnless and ReplyCommitIff speak of replies, and replies to older roots belong to the thread sweep.
- SlackRuns.RecentMessagesAreDone: speaks of root messages, too.
- SlackRuns.FetchCompletes: the pages of one listing are read at one instant; a message posted between two pages is newer than what the later pages hold and waits for the next pass.
- SlackRuns.StampMeansClean: is silent about candidates that no acknowledgement covered and about replies that were not read, as the code stamps despite both.
- SlackWholePass.ScanSlack: channels are fetched one after the other; the code fetches three at a time under a mutex that serialises the bookkeeping.
- ChannelDriver.ScanChannel: rooms run one after the other and no panic is swallowed; in the code they run concurrently under room locks, and a swallowed panic leaves a room without acknowledgement (the Drop step of SlackRuns).
- ThreadGroups.GroupIsServedOnce: every subscriber's cursor is at the root or at a reply, as registration and scans leave it; every user lookup succeeds; the shortcut and the seven-day timeout, which decide whether a group is swept at all, are separate; the 100-reply limit is a parameter of the page and the cap on reply evaluations is not modelled.
- ThreadGroups.HotSweeps: registrations by other scans fall between sweeps and before the thread is resolved; registering a message of a closed thread reopens its row, which is not part of a run here.
- ColdTier.RunColdPasses: only cold passes write the rows; what the hot tier does with a row that was reactivated is the subject of ThreadGroups.
- ThreadTable.HotAndColdAreDisjoint: the cold query's order and its limit of 97 rows are not modelled.
- WaRounds.WaitIsBounded: counts the rounds in which the chat of the oldest selected row starts with at most 51 buffered messages, the cycle is not interrupted and the scan's hold is written; any other cycles and scans may lie between them, uncounted, and WaitWithoutRoomIsUnbounded shows that no bound holds for those without room.
- WaProtocol.RetriesAreBounded: counts holds; a scan whose hold fails to be written is a drain alone.
- GmailCycles.RunScans: no mail leaves the mailbox, and a mailbox holds one mail per id.
- GmailScan.MarkedBeforeAnalysisIff: a mail that is named twice reads the same text both times; its two loads may still differ.
- GmailScan.Scanner.MarkAsProcessed: assumed to succeed; the code logs a failure and goes on.
- ChatBuffers.ChatBuffer.Replay: the library sort is known by its contract only; the nested map is keyed by the pair (email, chat).
- WaReplay.GroupReplayableByChat: a malformed payload is a case of its own; JSON decoding is not modelled.
- TaskFolding.FoldConserves: the title normaliser is an arbitrary function; subtasks of a folded later item are not carried over, as in the code.
- TruncatedArray.CutKeepsWholeItems: objects are texts between braces; JSON values are not parsed.
- The decision when a message is registered for the thread tier, and the posting of notices.
- Classification, involvement, payloads and completion dispatch: oracles or parameters.
- Network clients, retries, OAuth, HTTP handlers, configuration, logging, exports: no hard property.
- Telegram and LINE: they share the buffer and the driver and have no durable log.
