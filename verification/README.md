# NearMind backend: verified models

This project models the state machines, merges and loops behind the routes of the NearMind
backend and proves what they keep over every run, every interleaving or every input.
`dafny verify dfyconfig.toml` checks all of it.

Code that the repository writes as expressions is a function here. Code that changes rows or
local variables step by step is a class or a method with loops, and each such method is proved
equal to a function of the old state; the theorems are about those functions and about runs of
them. What one call answers and leaves behind is stated apart from its function, on its
arguments and the tables before and after (the modules named `Outcomes`, and lemmas beside the
others). Database tables are sequences whose positions are the row ids, instants are integers
(in microseconds where the difference matters, else milliseconds), scores are reals, and what
regular expressions and the URL parser decide is a function parameter, so every theorem holds
whichever texts match.

| files | what they model |
|---|---|
| `MobileFeed`, `MobileArrivals` | cursor paging over a fixed feed, and while rows arrive in any order |
| `MobileSync`, `SyncDrain`, `SyncLosses`, `MobileNotifications` | the merged sync page, following it to the end, the notification table |
| `SubagentModel`, `SubagentSafety`, `SubagentOutcomes` | leases, retries and reports of a subagent task, with its workers interleaved |
| `RelayModel`, `RelaySafety`, `RelayOutcomes`, `RelayService` | the Relay request protocol, its runs, and its handlers in place |
| `SpeakerRuns` | splitting a final transcript into speaker runs |
| `Commitments`, `TaskInbox`, `TaskRanking` | deduplication, proposal of commitments, task creation, ranking |
| `ContextWindow` | the rolling Redis list under interleaved pushes and trims |
| `Budget` | the daily research budget under interleaved calls |
| `InvestorModel`, `InvestorSafety`, `InvestorOutcomes`, `InvestorService` | lead research, duplicate detection, merge |
| `Freshness`, `Citations`, `Composer`, `ReportPack` | the citation gate, answer composition, report packs |
| `ActionModel`, `ActionSafety`, `ActionOutcomes`, `ActionService` | action proposals, decisions, executions, the payload policy |
| `Portability` | export and import of facts and skills |
| `Text`, `Cues` | splitting texts into words, limiting and evaluating cues |
| `StableSorting`, `Prelude` | the stable sort that the host language promises, small helpers |

Assumptions that hold throughout: a handler is one atomic step and the database does not fail
inside it, except in `ContextWindow`, `Budget` and `SubagentModel`, where the steps of a call are
interleaved and calls may break off.
`RelaySafety.SendNeedsAtomicity` and `ActionSafety.ExecutionNeedsAtomicity` show that the
assumption is needed, because the updates do not repeat the status check.

## What turned out to be false

Each of these comes with the exact condition under which the promise holds.

- Following the cursor does not always deliver every row once: the cursor carries whole
  milliseconds and the query compares strictly with stored microseconds. It does exactly when
  every page boundary is clean (`MobileFeed.DrainDeliversIff`), which distinct whole-millisecond
  instants guarantee; while rows arrive, in any order, exactly when moreover each row arrives
  after the cursor (`MobileArrivals.RunDeliversOnceIff`).
- For rows in microseconds, a drain ends exactly when no full page on its way lies inside one
  millisecond, past its start (`MobileFeed.DrainEndsIff`). Rows are lost exactly when a page is
  cut between two rows at one whole millisecond or a row becomes visible at or before the cursor
  (`MobileArrivals.RunLosesNothingIff`); so never when rows have different instants and become
  visible in their order (`RowsInOrderAreNotLost`). Rows may be delivered twice.
- `hasMore` of the merged sync is false although rows are left exactly when one source alone
  holds rows after the cursor, and more than `limit` of them (`MobileSync.SyncHasMore`). Following
  it delivers everything once exactly when no page leaves that behind and every boundary is clean
  (`SyncDrain.SyncDeliversIff`). Its rows are sorted by milliseconds and queried by microseconds,
  so it loses a row even where instants differ (`SyncLosesAnEarlierRow`): everything arrives at
  least once exactly when no page is cut off before a row on its cursor's whole millisecond, hides
  what is left or stands still (`SyncLosses.SyncLosesNothingIff`), and following it ends exactly
  when no page that says there is more stands still (`SyncLosses.SyncEndsIff`).
- docs/deployment/render-neon-upstash.md line 79 says that the lease of a dead worker can be
  reclaimed safely. A task gets a second report only if it is claimed again between an
  execution's lease check and its last write, or requeued by an execution whose lease is gone, or
  a worker dies between its report and its last write (`SecondReportNeedsHazard`), and each of
  these is enough (`EachHazardSuffices`). Heartbeats in time and no such death exclude a second
  report (`PunctualReportsOnce`). A finished task is queued again exactly when an execution can
  still requeue it (`ComesBackIff`), and its status overwritten exactly when one has yet to make a
  write that differs (`OverwrittenIff`). The maximum of attempts does not count those that end
  with their worker (`AttemptsBounded`, `CrashesGoOn`).
- docs/relay/privacy-and-approval-model.md line 15 says that blocked senders are rejected. A
  block decided on a request always holds. Blocking a contact holds exactly when the contact is
  linked to the sender's account (`BlockingContactIff`). A row with an address alone stops a send
  exactly when the blocker is the sender itself, and never to the blocker's own account
  (`AddressBlockStopsIff`, with a run in `AddressBlockDoesNotHold`).
- docs/outreach/investor-lead-dedupe-policy.md line 17 says that merges preserve tags. They do
  exactly when there are at most twenty different ones (`MergedTagsPreservedIff`, with an input in
  `TwentyFirstTagIsLost`).
- A merge keeps a live lead behind every lead exactly when following merge links from the target
  does not lead to the duplicate (`MergeLeadsOnIff`, over runs `RunLeadsOnIff`). Merging back is
  not refused and leaves two merged leads that name each other (`MergingBackLosesBoth`).
- Dismissing a candidate keeps unique leads apart exactly when it collides with none
  (`DismissUniqueIff`, with two leads in `DismissingRestoresADuplicate`).
- A second proposal from the same session stores nothing, but one proposal keeps the session's
  keys unique exactly when values of the call that share a key have one that is stored already
  (`KeysStayUniqueIff`, with an input in `SameCommitmentTwice`).
- A `skill_enable` execution is logged as completed even when it enables nothing
  (`CompletedSkillIsEnabledIff`, with a disabled skill in `CompletedWithoutEnabling`).
- The caveat that composing fills into a high-stakes answer is filled in exactly when citations
  are not required; otherwise such an answer is thrown away (`CaveatFilledInIff`). The plain list
  of sources that replaces an answer is not validated; its citations would all pass exactly when
  every source has a url and a title and no refused source answers for its url
  (`ListIsBackedIff`).
- The citation minimum counts citations, not sources (`RepeatedCitationCounts`), and a pack
  without an answer is refused for a high-stakes query with one source
  (`SourceOnlyPackRefusedIff`, `LoneHighStakesSourceIsRefused`).
- The export and import round trip keeps facts exactly when they are in range and the skills
  beside them have their texts (`RoundTripIff`, for stored rows `TableRoundTripIff`, with a long
  fact in `LongFactIsCut`).

## Model

| member | source | states |
|---|---|---|
| MobileFeed.ClampLimit | src/mobile/notifications.ts:62 | the page size is always between 1 and 100 |
| MobileFeed.PageSizeIs | src/mobile/notifications.ts:62 | it is 50 where none is asked for, what is asked for where that is allowed, and else the allowed number nearest to it |
| MobileFeed.DrainDeliversIff | src/mobile/notifications.ts:61-75 | following the cursor until `hasMore` is false ends and delivers the whole feed once and in order, exactly when every page boundary separates its two sides by the cursor's millisecond |
| MobileFeed.DrainFrom | src/mobile/notifications.ts:61-75 | with clean page boundaries some finite number of polls ends the drain and delivers exactly the rows from the cursor on |
| MobileFeed.WholeMillisecondsAreClean | src/mobile/notifications.ts:65-72 | distinct instants at whole milliseconds are enough, for every limit |
| MobileFeed.DrainStuck | src/mobile/notifications.ts:65-72 | a full first page inside one millisecond is delivered again by every poll and the drain never ends |
| MobileFeed.DrainEndsIff | src/mobile/notifications.ts:61-75 | for instants of any precision a drain ends exactly when no full page on its way lies inside one millisecond, past its start |
| MobileFeed.SparseAdvances | src/mobile/notifications.ts:61-75 | it ends when no `limit` rows in a row fall into one millisecond |
| MobileArrivals.RunDeliversOnceIff | src/mobile/notifications.ts:61-75 | with rows of any instants becoming visible in any order between polls of any sizes, what was received and what is after the cursor make up the table at every moment exactly when each page ends at a clean cut and each row arrives after the cursor |
| MobileArrivals.WholeMillisecondsRunClean | src/mobile/notifications.ts:61-75 | where rows become visible in the order of their stamps, all different and at whole milliseconds, every step of a run is clean, so each row is received once |
| MobileArrivals.PollReports | src/mobile/notifications.ts:68-73 | in such a state `hasMore` holds exactly when the poll leaves something undelivered |
| MobileArrivals.RunLosesNothingIff | src/mobile/notifications.ts:61-75 | with different rows of any instants becoming visible in any order, nothing is lost by the end of a run exactly when no page was cut between two rows at one whole millisecond and every row arrived after the cursor |
| MobileArrivals.RowsInOrderAreNotLost | src/mobile/notifications.ts:61-75 | rows that become visible in the order of their stamps, no two stamps equal, are never lost, however close |
| MobileArrivals.LastPollCompletes | src/mobile/notifications.ts:68-73 | where nothing is lost, a poll that reports no more completes what was received |
| MobileFeed.SortAfter | src/mobile/notifications.ts:65-67 | filtering by cursor and stable sorting commute |
| MobileSync.TopOfCapped | src/mobile/notifications.ts:101-124 | for any number of ascending sources, capping each at `limit` before the stable merge leaves the first `limit` rows unchanged, also among equal instants |
| MobileSync.SyncIsFeedPage | src/mobile/notifications.ts:97-131 | a sync page is the page after the cursor of the one merged feed of all sources, and its cursor is that page's cursor |
| MobileSync.SyncHasMore | src/mobile/notifications.ts:124-129 | a short page leaves nothing, `hasMore` is never wrongly true, and is wrongly false exactly when a single source holds all remaining rows and more than `limit` |
| MobileSync.SyncPageSize | src/mobile/notifications.ts:97-126 | a sync page holds as many items as its size, or all rows after the cursor in all sources, counted there; without a cursor, after the epoch |
| MobileSync.SyncHidesASecondRow | src/mobile/notifications.ts:129 | two rows in one source and a limit of one: a row is left and `hasMore` is false |
| SyncDrain.SyncDeliversIff | src/mobile/notifications.ts:97-131 | following the sync page's own cursor while its own `hasMore` is true delivers everything after the starting cursor once and in merged order, exactly when every boundary is clean and no page leaves one source with more than `limit` rows and the others with none |
| SyncDrain.SyncDrainFrom | src/mobile/notifications.ts:97-131 | under that condition some finite number of sync pages delivers exactly the rest |
| SyncLosses.SyncLosesNothingIff | src/mobile/notifications.ts:97-131 | for stamps of any precision, following the sync pages ends with every row received at least once exactly when each page with more behind it says so, has a cursor that passes some row, and has no row behind it on its cursor's whole millisecond |
| SyncLosses.SyncEndsIff | src/mobile/notifications.ts:97-131 | following the sync pages ends exactly when every page that says there is more has a cursor that passes some row |
| SyncLosses.SyncLosesAnEarlierRow | src/mobile/notifications.ts:97-131 | two rows half a millisecond apart in two sources, and pages of one: the end is reached without the earlier row |
| MobileNotifications.NotificationTable.Create | src/mobile/notifications.ts:37-59 | one row is appended with these columns, the payload and priority defaulting, unread, whatever its stamp, and ids stay unique |
| MobileNotifications.NotificationTable.List | src/mobile/notifications.ts:61-75 | the page holds only stored rows of the user after the cursor, as many as its size or as there are in the table, is that page of the user's feed, and its flag and cursor say exactly what is left and where it ends |
| MobileNotifications.NotificationTable.AckMany | src/mobile/notifications.ts:87-95 | exactly the user's rows among the ids are marked, all others stay, and the marked ones are returned; no ids change nothing |
| MobileNotifications.AckOutcome | src/mobile/notifications.ts:77-95 | exactly the user's rows among the ids get both marks and change in nothing else |
| MobileNotifications.NotificationTable.Ack | src/mobile/notifications.ts:77-85 | a row comes back exactly when the user has one with that id, and it is marked |
| MobileNotifications.ListingIsFeedPage | src/mobile/notifications.ts:61-75 | a listing is a page of the user's ordered feed with an exact `hasMore` and the feed's cursor |
| MobileNotifications.CreateIsArrival | src/mobile/notifications.ts:46-57 | creating a row, with whatever stamp, is an arrival in its owner's feed and in nobody else's |
| MobileNotifications.AckKeepsListings | src/mobile/notifications.ts:77-95 | acknowledging changes no later listing except for the read marks: same rows, cursor and `hasMore` for every reader |
| SubagentSafety.SecondReportNeedsHazard | src/subagents/worker.ts:110-156 | over all interleavings of claims, heartbeats, reclaims, cancellations, crashes and the statements of any number of executions, a task gets more than one report only if it is claimed between a lease check and the last write behind it, requeued by an execution whose lease is gone, or left by a worker that died between its report and its last write |
| SubagentSafety.EachHazardSuffices | src/subagents/worker.ts:110-182 | each of the three alone leads to a second report in some run |
| SubagentSafety.PunctualIsSerial | src/subagents/leases.ts:5-32 | if no lease runs out while its execution is at work, at most one execution is at work at any time, under its own lease unless the task was stopped |
| SubagentSafety.PunctualReportsOnce | src/subagents/leases.ts:5-32 | and then a task gets at most one report, unless a worker dies between its report and its last write |
| SubagentSafety.MayReportAgainIff | src/subagents/worker.ts:59-182 | a task can still get a report exactly if it is queued or running, or an execution can still requeue it or has passed its check and not reported |
| SubagentSafety.ComesBackIff | src/subagents/worker.ts:156-176 | a task that is over can be queued again exactly if an execution is about to requeue it, or at work, not aborted and below the maximum of attempts |
| SubagentSafety.OverwrittenIff | src/subagents/worker.ts:126-223 | the status of a task that is over can change without the user or a sweep exactly if some execution has yet to make a write that differs, whoever holds the lease |
| SubagentSafety.AttemptsBounded | src/subagents/worker.ts:158-162 | a task is attempted at most as often as allowed, and once more for each lease taken away |
| SubagentSafety.CrashesGoOn | src/subagents/leases.ts:16-31 | attempts whose worker dies are not bounded by the maximum: any number is reached |
| SubagentOutcomes.StatusHasItsCause | src/subagents/worker.ts:59-232 | over every run, a task is completed only if a worker returned a completed report, failed only if one returned another or threw, canceled only by the user, expired only if an execution was aborted, suppressed only by the end or closing of its session, the policy, or an execution that found it stopped |
| SubagentOutcomes.OneAttempt | src/subagents/worker.ts:59-144 | one execution from creation to its end: completed or failed as its worker returned, with one report |
| SubagentOutcomes.ReturnEnds | src/subagents/worker.ts:84-97 | under its lease and with an open session an execution that returns ends the task completed or failed by what it returned, with its report |
| SubagentOutcomes.DenyEnds | src/subagents/worker.ts:71-76 | a denied task ends suppressed with a report |
| SubagentOutcomes.LastThrowEnds | src/subagents/worker.ts:156-182 | an error that is not retryable, or of the last attempt, ends the task failed with a report |
| SubagentOutcomes.RetryWaits | src/subagents/worker.ts:156-176 | any other error queues the task, to be claimed from its delay on and not before |
| SubagentOutcomes.UnpermittedEnds | src/subagents/worker.ts:90-93 | without an open session, or for a task that was stopped, the outcome is suppressed without a report |
| SubagentOutcomes.AbortEnds | src/subagents/worker.ts:184-202 | an aborted execution leaves a canceled task canceled and makes any other one expired, without a report |
| SubagentOutcomes.StaleCheckEnds | src/subagents/worker.ts:120-124 | an execution without its lease at the check writes nothing |
| SubagentOutcomes.StopEnds | src/subagents/scheduler.ts:69-131 | what a cancellation, the end of a session, a discarded session and the sweep make of a task |
| SubagentOutcomes.LeaseLasts | src/subagents/leases.ts:16-32 | a claim is safe from the sweep for exactly the time of its lease |
| SubagentOutcomes.BeatRenews | src/subagents/leases.ts:5-14 | a heartbeat renews that time |
| SubagentOutcomes.StaleBeat | src/subagents/leases.ts:5-14 | a heartbeat for a lease that is gone changes nothing |
| RelaySafety.ReachableConsistent | src/relay/service.ts:121-204 | in every reachable state of any run the approvals of a request fit its status: none while draft or pending, one sender approval when sent, that and one recipient decision when decided |
| RelaySafety.RunConsistent | src/relay/service.ts:108-221 | the same from any consistent state |
| RelaySafety.RunKeepsRequests | src/relay/service.ts:155-204 | over any continuation canceled is absorbing, a decided request can only be canceled, the recipient is fixed once sent, and a team update is only ever draft or canceled |
| RelaySafety.NextMayBecome | src/relay/service.ts:155-204 | one step moves each request along the protocol or not at all, and removes none |
| RelaySafety.AddressOnlyRequestsAreNeverDecided | src/relay/service.ts:155-197 | a request has no recipient account exactly when its contact has none, and then it is never decided |
| RelaySafety.BlockHolds | src/relay/service.ts:155-165 | once a recipient has a block row on a sender, no later step of any run sends a request between them |
| RelaySafety.DecidingBlockRecordsIt | src/relay/service.ts:208-210 | the decision to block records that row, whatever payload comes with it |
| RelaySafety.BlockingContactIff | src/relay/service.ts:94-106 | blocking a contact records a row on a sender exactly when the contact is linked to that account or there was one before |
| RelaySafety.AddressBlockStopsIff | src/relay/policy.ts:23-35 | a row that names only an address changes a send's verdict exactly when the blocker is the sender, the request has no account and goes to that address |
| RelaySafety.AddressBlockDoesNotHold | src/relay/policy.ts:23-35 | after a contact known by address was blocked, a request from that address's account is still sent |
| RelaySafety.RateLimitHolds | src/relay/policy.ts:7-14 | no run brings a closed one-hour window above twenty requests of one sender, wherever it starts |
| RelaySafety.ReachableRateKept | src/relay/policy.ts:7-14 | the same from empty tables |
| RelaySafety.SendNeedsAtomicity | src/relay/service.ts:165 | a cancellation between the check and the writes of a send would be overwritten by `sent` |
| RelayOutcomes.DraftOutcome | src/relay/service.ts:108-153 | a draft is stored exactly below twenty requests in the hour, with nothing private in either text, no broadcast but by a team update, and a recipient that can be addressed; else the first reason against it is answered and of the tables only the identity is new |
| RelayOutcomes.SendOutcome | src/relay/service.ts:155-182 | a request is sent exactly if it is the user's and pending, no team update, its contact may be addressed and somebody can be sent to whom no row stops; only that request and one approval change |
| RelayOutcomes.SendRefusals | src/relay/service.ts:155-170 | which error each other send meets |
| RelayOutcomes.DecideOutcome | src/relay/service.ts:195-221 | a decision is taken exactly by the recipient of a sent request unless it shares a private payload, with the status, approval row, payload and block row of that decision; else which error, and nothing changes |
| RelayOutcomes.CancelOutcome | src/relay/service.ts:184-193 | the sender's request alone becomes canceled |
| RelayOutcomes.ContactStatusOutcome | src/relay/service.ts:94-106 | only the owner sets a contact's status, and only blocking adds a row, on whoever the contact is known to be |
| RelayOutcomes.ContactAddedOutcome | src/relay/service.ts:73-92 | a contact is stored with the account registered for its address, proposed if there is one and invited if not |
| RelayService.Relay.GetOrCreateIdentity | src/relay/service.ts:31-47 | the user has an identity afterwards and nobody else's changed |
| RelayService.Relay.CreateContact | src/relay/service.ts:73-92 | one contact is appended, linked and `proposed` when the address has an account, else `invited` |
| RelayService.Relay.UpdateContactStatus | src/relay/service.ts:94-106 | only the owner changes the status, and blocking adds one block row with the contact's account and address |
| RelayService.Relay.AssertContactOwned | src/relay/policy.ts:16-21 | the stored contact comes back exactly when the user owns it and it is neither blocked nor removed; not found exactly when it is not theirs |
| RelayService.Relay.Resolve | src/relay/service.ts:306-329 | an owned contact, or a new one for an address or a name, or not found |
| RelayService.Relay.CreateRelayDraft | src/relay/service.ts:108-153 | the checks in their order, what each leaves behind, and the drafted row |
| RelayService.Relay.ApproveRelaySend | src/relay/service.ts:155-182 | each refusal leaves the tables alone; a send fixes the recipient, sets `sent` and appends one approval |
| RelayService.Relay.CancelRelayRequest | src/relay/service.ts:184-193 | the sender's request becomes canceled whatever its status |
| RelayService.Relay.DecideIncoming | src/relay/service.ts:195-221 | status, approval, payload and block row of each decision, and the refusals |
| SpeakerRuns.RunsAreMaximal | src/asr/deepgram.ts:116-129 | the runs concatenate to the words, none is empty, each has one speaker, neighbours differ |
| SpeakerRuns.MaximalRunsUnique | src/asr/deepgram.ts:116-129 | there is only one such decomposition |
| SpeakerRuns.SegmentConfidenceInUnit | src/asr/deepgram.ts:103-114 | a segment's confidence is the mean of the numeric ones and in [0, 1] when they are, and the fallback exactly when there is none |
| SpeakerRuns.SegmentSpeaker | src/asr/deepgram.ts:143-145 | the caller is labelled as such and everybody else by number, where a word without a speaker is by speaker 0 |
| SpeakerRuns.SegmentSpells | src/asr/deepgram.ts:104-126 | the text spells the words of its run, punctuated where that is known |
| SpeakerRuns.SegmentBegins | src/asr/deepgram.ts:119-122 | it begins at the nearest millisecond to its first word, or where the caller says |
| SpeakerRuns.SegmentWeighs | src/asr/deepgram.ts:109 | its confidence times the number of words with one is their sum |
| SpeakerRuns.SpokenKeeps | src/asr/deepgram.ts:128 | exactly the segments with a text are kept |
| SpeakerRuns.Splitter.Flush | src/asr/deepgram.ts:103-114 | a flush appends the segment of the open run and resets the sums but not the speaker |
| SpeakerRuns.Splitter.Read | src/asr/deepgram.ts:116-128 | one word extends the open run or closes it and opens another |
| SpeakerRuns.SplitSpeakerRuns | src/asr/deepgram.ts:95-131 | the loop returns the segments of the maximal runs in order, without those that spell nothing |
| SpeakerRuns.CountSpeakers | src/asr/deepgram.ts:135-139 | the map's entries are the speakers in order of first appearance with their word counts |
| SpeakerRuns.DominantSpeaker | src/asr/deepgram.ts:133-141 | the speaker with most words, the earliest to speak among equals, 0 when there are no words |
| Commitments.DedupeCommitments | src/daily/commitment-extractor.ts:193-204 | the filter that fills its own set of keys; the check for the very same key never fires |
| Commitments.DedupeIsKept | src/daily/commitment-extractor.ts:193-204 | the result is, in order, the values that no kept value before them covers, and everything dropped has an earlier kept witness |
| Commitments.RetainedAreApart | src/daily/commitment-extractor.ts:196-199 | no later retained title occurs in an earlier retained key, no earlier one in a later key, and retained keys differ |
| Commitments.HeadStartsTitle | src/daily/commitment-extractor.ts:197-198 | what the filter reads back from a key starts the title, and is all of it exactly when the title has no bar |
| Commitments.ArticleGoes | src/daily/commitment-extractor.ts:194-198 | one leading article goes with the white space behind it |
| Commitments.OtherTitlesStay | src/daily/commitment-extractor.ts:194-198 | any other title stays |
| Commitments.SameKeyIff | src/daily/commitment-extractor.ts:194-198 | two values share a key exactly for one title, day and counterparty |
| Commitments.SameDedupeKeyIff | src/daily/commitment-extractor.ts:206-208 | the same of the stored keys, a missing day or counterparty standing for itself |
| Commitments.DedupeIdempotent | src/daily/commitment-extractor.ts:193-204 | filtering again changes nothing |
| Commitments.CommitmentTable.ProposeFromSavedSession | src/daily/commitment-extractor.ts:92-100 | only a saved session stores anything, and then the values whose keys are not stored for it |
| Commitments.ProposingAgain | src/daily/commitment-extractor.ts:92-100 | repeating the call with the same extraction stores nothing, as every value has a key |
| Commitments.DedupeKey | src/daily/commitment-extractor.ts:206-208 | a commitment's key is never empty |
| Commitments.KeysStayUniqueIff | src/daily/commitment-extractor.ts:97-100 | keys of a session stay unique exactly when extracted values that share a key have one stored already |
| Commitments.SameCommitmentTwice | src/daily/commitment-extractor.ts:64-100 | the same commitment in two segments is stored twice |
| TaskInbox.Inbox.CreateTaskFromCommitment | src/daily/task-inbox.ts:26-66 | one row with the commitment's key exists afterwards and is returned; it is new only when none was known |
| TaskInbox.Inbox.ProposeTasksForCommitments | src/daily/task-inbox.ts:68-72 | one row for each input, carrying that input's key |
| TaskInbox.Inbox.UpdateTaskStatus | src/daily/task-inbox.ts:83-96 | only the owner's row changes, and keys stay unique |
| TaskInbox.TasksStayUnique | src/daily/task-inbox.ts:26-72 | user and key stay unique for every list of commitments |
| TaskInbox.KnownAfter | src/daily/task-inbox.ts:26-72 | exactly the keys known before or asked for are known afterwards |
| TaskInbox.CreatingAgain | src/daily/task-inbox.ts:28-35 | repeating the call at any later time inserts nothing |
| TaskInbox.TaskOutcome | src/daily/task-inbox.ts:26-66 | a commitment adds its task, with these columns, exactly if its user has none with its key |
| TaskRanking.RankingIsStable | src/daily/priority-ranker.ts:13-15 | the ranking is a stable permutation by descending total |
| TaskRanking.TotalBounds | src/daily/priority-ranker.ts:17-42 | every total is in [-59, 270], and at least 1 for a task that the inbox shows |
| TaskRanking.TotalBoundsAttained | src/daily/priority-ranker.ts:17-42 | all three bounds are reached |
| TaskRanking.EarlierIsNoLower | src/daily/priority-ranker.ts:30-31 | moving a due date earlier never lowers the total |
| TaskRanking.PriorityMonotone | src/daily/priority-ranker.ts:4-11 | an earlier date, a higher confidence or having a date never lowers the priority |
| TaskRanking.UrgencyIs | src/daily/priority-ranker.ts:31-32 | nothing without a date, most past it, and between 80 falling by 12 a day until a week |
| TaskRanking.StatusEffect | src/daily/priority-ranker.ts:34-37 | what each status is worth against a proposed task |
| TaskRanking.PriorityEffect | src/daily/priority-ranker.ts:30 | what each priority is worth |
| TaskRanking.TextEffects | src/daily/priority-ranker.ts:35-36 | a detail or next step is worth thirteen, once, and a named blocker costs as much as waiting |
| TaskRanking.AgeEffect | src/daily/priority-ranker.ts:33-38 | each day since the suggestion costs two, for ten days |
| TaskRanking.PriorityIs | src/daily/priority-ranker.ts:4-11 | within a day urgent, within three or for sensitivity or certainty high, else normal |
| ContextWindow.TrimIsTakeLast | src/redis.ts:52 | `LTRIM -n -1` keeps exactly the last n elements |
| ContextWindow.ReadIsWhole | src/redis.ts:58 | `LRANGE 0 -1` reads the whole list |
| ContextWindow.RunKeepsWindow | src/redis.ts:47-54 | under every interleaving, with crashes and expiries, the list is a suffix of the pushes, at least min(N, pushes) long and at most N plus the pushes since the last trim |
| ContextWindow.QuiescentWindow | src/redis.ts:47-60 | without crashes the excess is at most the trims to come, and at rest the list is the last N pushes |
| ContextWindow.RunRecords | src/redis.ts:47-66 | the history is what was pushed since the last clear, and the counters count pushes without a trim |
| ContextWindow.SegmentList.PushSegment | src/redis.ts:47-54 | an uninterrupted push appends to the history and the list stays its last N |
| ContextWindow.SegmentList.ReadContext | src/redis.ts:56-60 | a read gives the last N pushes |
| ContextWindow.SegmentList.ClearSession | src/redis.ts:62-66 | nothing is left |
| Budget.WindowIsDay | src/governor/budget.ts:92-97 | the window contains its instant and exactly the instants of the same UTC day |
| Budget.SearchesAreCounted | src/governor/budget.ts:41-56 | every recorded search of the day is among the rows that the check counts |
| Budget.UsedTodayIs | src/governor/budget.ts:41-56 | the check counts exactly the user's rows of the same day whose name holds the word in any letter case |
| Budget.CountsIff | src/governor/budget.ts:43-54 | which names hold it |
| Budget.StepOutcome | src/server.ts:1451-1459 | a call is under way from a check that finds less than the limit until it is recorded or fails |
| Budget.Governor.RecordProviderUsage | src/governor/budget.ts:7-30 | one usage row is appended |
| Budget.Governor.AssertBudgetAvailable | src/governor/budget.ts:78-83 | a call may go on exactly when the budget is off, there is no user, or the day's research rows are below the limit |
| Budget.DailySearchesBounded | src/server.ts:1451-1459 | with at most k calls of a user under way, the searches recorded on any day never exceed limit + k - 1, across midnights, failures and other usage |
| Budget.OneAtATimeKeepsLimit | src/server.ts:1451-1459 | one call at a time never exceeds the limit |
| Budget.BoundReached | src/server.ts:1451-1459 | k simultaneous calls do reach limit + k - 1 |
| InvestorSafety.AssessIsSourceBacked | src/outreach/contact-confidence.ts:17-62 | an address is given exactly when a source contains one, and is that of the row it names; a supplied candidate is flagged and never used |
| InvestorSafety.RunProvenance | src/outreach/investor-research.ts:95-179 | over every run a lead has an address exactly when its status is `source_backed` and its source id names a stored row of the same user that contains the address |
| InvestorSafety.MergeMovesSources | src/outreach/lead-merge.ts:16-44 | a merge loses no source row, changes only whose they are, and leaves none on the merged lead |
| InvestorSafety.RunUnique | src/outreach/investor-research.ts:181-192 | over every run without dismissals no two unique leads of a campaign share a domain or a firm name |
| InvestorSafety.DismissUniqueIff | src/outreach/lead-merge.ts:49-56 | a dismissal keeps them apart exactly when the dismissed lead collides with no unique one |
| InvestorSafety.DismissingRestoresADuplicate | src/outreach/lead-merge.ts:49-56 | of two leads with one firm name, dismissing the candidate leaves two unique ones |
| InvestorSafety.MergeAttachedIff | src/outreach/lead-merge.ts:16-30 | exactly when the row behind the target's address hangs on the target after a merge; always for a duplicate that was not merged before |
| InvestorSafety.MergeLeadsOnIff | src/outreach/lead-merge.ts:36-44 | after a merge a lead leads to a live one exactly unless its links and the target's both pass through the duplicate; so all do exactly when the target's links do not lead to it |
| InvestorSafety.RunLeadsOnIff | src/outreach/lead-merge.ts:6-56 | over every run of research, merges and dismissals a live lead stays behind every lead exactly when no merge has a target whose links lead to its duplicate |
| InvestorSafety.MergingBackLosesBoth | src/outreach/lead-merge.ts:6-10 | merging back is accepted and then neither lead leads to a live one |
| InvestorSafety.MergedTagsPreservedIff | src/outreach/lead-merge.ts:63-65 | merged tags repeat and invent nothing, and lose none exactly when there are at most twenty |
| InvestorSafety.TwentyFirstTagIsLost | src/outreach/lead-merge.ts:63-65 | of twenty-one different tags one is lost |
| InvestorOutcomes.DetectDuplicateIff | src/outreach/investor-research.ts:181-192 | a lead is a candidate duplicate exactly if it has a firm or a domain and a unique lead of the same user and campaign has the same of either |
| InvestorOutcomes.PersistOutcome | src/outreach/investor-research.ts:95-179 | the columns of the lead and source row a result leaves, flagged exactly if a unique lead matches, or nothing without a url or title |
| InvestorOutcomes.UnmatchedIsUnique | src/outreach/investor-research.ts:181-192 | a lead that matches no unique one, such as the first of a campaign, is stored as unique and without the flag |
| InvestorOutcomes.ResearchOutcome | src/outreach/investor-research.ts:95-179 | one lead and one source row for each usable result of the first eight, behind what is there |
| InvestorOutcomes.AddressOutcome | src/outreach/contact-confidence.ts:26-43 | the first row with an address in its title and snippet gives it, at 0.9 on the firm's own site and 0.65 elsewhere |
| InvestorOutcomes.PageOutcome | src/outreach/contact-confidence.ts:44-56 | without an address the first page about contacts is given at 0.55, and a supplied address only flagged |
| InvestorOutcomes.NothingOutcome | src/outreach/contact-confidence.ts:57-66 | with neither, nothing is given at 0.25, and a flag says why |
| InvestorOutcomes.MergeOutcome | src/outreach/lead-merge.ts:6-47 | two leads are merged exactly if they are of one user and campaign and the second is a candidate or looks like the first; what the target takes over, what becomes of the other lead and of each source row |
| InvestorOutcomes.DismissOutcome | src/outreach/lead-merge.ts:49-56 | only the owner's lead becomes unique, and nothing else changes |
| InvestorService.AssessContactConfidence | src/outreach/contact-confidence.ts:17-62 | the early-return chain gives an address exactly when a source contains one, that of the row it names, and flags a supplied candidate without using it |
| InvestorService.CombineLeads | src/outreach/lead-merge.ts:11-33 | address, source and confidence come together from one lead, the target first; the source confidence is the higher one; every list gathers both leads' tags; the target keeps its identity |
| InvestorService.LeadTable.DetectDuplicateStatus | src/outreach/investor-research.ts:181-192 | a candidate duplicate exactly when a unique lead of the campaign shares the domain or the firm name |
| InvestorService.LeadTable.PersistSourceBackedInvestors | src/outreach/investor-research.ts:95-179 | at most eight results become leads, each with its source row and the contact read from it |
| InvestorService.LeadTable.MergeInvestorLeads | src/outreach/lead-merge.ts:6-47 | refused and unchanged, or the moved rows, the combined target and the merged lead |
| InvestorService.LeadTable.DismissDuplicateCandidate | src/outreach/lead-merge.ts:49-56 | only the owner's lead becomes unique |
| Freshness.FreshnessScore | src/research/freshness.ts:3-12 | every score is in [0.15, 1] |
| Freshness.FreshEnoughIff | src/research/freshness.ts:3-19 | the freshness gate passes exactly the dated sources that score at least 0.35 |
| Freshness.LaterIsNoStaler | src/research/freshness.ts:3-12 | a later publication never scores lower |
| Freshness.ScoreOfAge | src/research/freshness.ts:3-12 | full in the first quarter of the allowed age, then falling with the age to 0.35, and 0.15 beyond; fixed scores without a readable date |
| Citations.SourcesByUrlIff | src/research/citations.ts:31 | a url is known exactly when a source has it up to normalisation, and then stands for the last such source |
| Citations.FilterCitations | src/research/citations.ts:32-40 | the filter keeps the standing citations and pushes what is wrong with the others, in order |
| Citations.ValidateResearchCitations | src/research/citations.ts:25-69 | the verdict, the kept citations, the quality numbers and the findings |
| Citations.StandsIffBacked | src/research/citations.ts:33-39 | a citation is kept exactly when it has a url and a title and the last source with its url is not refused |
| Citations.OkIff | src/research/citations.ts:45-68 | an answer passes exactly when all its citations are backed, there are enough, a high-stakes one names a limitation and, where demanded, all its sources are fresh |
| Citations.PassesIff | src/research/source-policy.ts:40-110 | the same verdict domain by domain from the settings alone: how many citations each demands, which want a limitation, and which want sources dated within which age |
| Citations.StaleNeverPasses | src/research/citations.ts:48 | an answer on news, money or law that cites a source without a date, or older than its domain allows, never passes |
| Citations.DatesDoNotMatter | src/research/source-policy.ts:40-110 | in every other domain the verdict is the same whenever the sources were published |
| Citations.FindingsIff | src/research/citations.ts:32-57 | each finding is there exactly for its reason, in a citation or in the answer |
| Citations.QualityCounts | src/research/citations.ts:41-60 | what the reported numbers count: kept and dropped citations, and those answered for by official and by credible sources |
| Citations.ScoreIs | src/research/citations.ts:48-50 | how the score is made of the reported numbers |
| Citations.CredibilityIs | src/research/verifier.ts:13-18 | the credibility of each kind of source, and where it is raised |
| Citations.KeptAreBacked | src/research/citations.ts:32-40 | every kept citation was made by the answer and is backed, whatever the answer |
| Citations.StandingTwice | src/research/citations.ts:32-40 | validating the kept citations keeps them all and finds nothing |
| Citations.RepeatedCitationCounts | src/research/citations.ts:47-51 | an answer that repeats one backed citation passes exactly when it repeats it often enough |
| Citations.ScoreBounds | src/research/citations.ts:48-50 | the score is in [0, 1]; a passing answer scores at least 0.48 exactly when it cites something, and at least 0.52 where freshness is demanded |
| Citations.ScoreBoundReached | src/research/citations.ts:48-50 | a passing answer with exactly 0.48 |
| Citations.HighCredibilityIff | src/research/verifier.ts:13-18 | high credibility means official or academic in every domain |
| Citations.OfficialCountsTwice | src/research/citations.ts:42-43 | every official source is also counted as highly credible |
| Composer.ValidateSourceBackedAnswer | src/research/composer.ts:82-95 | the answer with its kept citations and a clamped confidence, or the error it is refused with |
| Composer.ComposeResearchAnswer | src/research/composer.ts:9-71 | the try, the catch and the two fallbacks |
| Composer.WhatIsReturnedIsSourceBacked | src/research/composer.ts:9-95 | for any output or failure of the language model, a returned answer cites only supplied sources, has a confidence in [0, 1] and a limitation where stakes are high |
| Composer.ThrowsIff | src/research/composer.ts:58-70 | exactly when composing throws |
| Composer.RefusalIff | src/research/composer.ts:85-89 | a refused answer falls back to the list of sources unless its only faults are a missing limitation or stale sources |
| Composer.SynthesizedIsUntouched | src/research/composer.ts:56-57 | an answer that passes is returned as it is, with its confidence clamped, and scores at least 0.48 if it cites anything |
| Composer.CaveatFilledInIff | src/research/composer.ts:57 | the caveat is filled in exactly when citations are not required |
| Composer.ListIsBackedIff | src/research/composer.ts:73-80 | every citation of the plain list would stand exactly when each source has a url and a title and the last source with its url is not refused |
| Composer.FailureOutcome | src/research/composer.ts:58-70 | which failures become the plain list of all sources, with which reason, and which are thrown on |
| Composer.RefusedFor | src/research/composer.ts:82-95 | an answer refused for itself alone is thrown with its first fault; any other becomes the plain list or is thrown for its citations |
| Composer.UncheckedOutcome | src/research/composer.ts:56-57 | where citations are not required an answer keeps what stands, and gets the caveat of its domain where stakes are high |
| Composer.NoSourcesOutcome | src/research/composer.ts:9-20 | without sources the answer says so, whatever the model did |
| ReportPack.SourceOnlyAnswer | src/research/report-pack.ts:124-131 | it cites the first three sources under their titles, and always has a limitation |
| ReportPack.PackRefusedIff | src/research/report-pack.ts:72-80 | a pack is refused exactly when its answer cites something and does not pass; the inner throw never fires |
| ReportPack.PackNamesItsSources | src/research/report-pack.ts:76-86 | every citation of the answer is reported in order with the stored source that answers for its url; confidence in [0, 1], score at least 0.48 if there is one |
| ReportPack.PackSpansItsSources | src/research/report-pack.ts:87-107 | no stored source is older or newer than the reported dates |
| ReportPack.DatesBound | src/research/report-pack.ts:87-107 | the reported dates are dates of stored sources |
| ReportPack.PackDates | src/research/report-pack.ts:87-107 | the newest and oldest date are those of a stored source, by publication or else by fetching, and no source is outside them |
| ReportPack.PackSays | src/research/report-pack.ts:92-131 | the text, limitations and confidence of a pack, with an answer and without one |
| ReportPack.StoredIsJudged | src/research/report-pack.ts:133-145 | a stored source is judged by its title or else its url, its date of publication and its kind |
| ReportPack.SourceOnlyPackRefusedIff | src/research/report-pack.ts:69-75 | exactly when a pack without an answer is refused |
| ReportPack.LoneHighStakesSourceIsRefused | src/research/report-pack.ts:69-75 | one source is never enough for a high-stakes pack without an answer |
| ActionSafety.ReachableConsistent | src/actions/executor.ts:10-37 | in every reachable state a proposal has at most one execution log; executed means a safe internal action, approved last, with one completed log and the one task it creates; what the policy rejected is never approved or executed |
| ActionSafety.RunConsistent | src/actions/approval.ts:14-38 | the same from any consistent state |
| ActionSafety.RunKeeps | src/actions/approval.ts:20-29 | executed and rejected are absorbing, and a failed proposal can only be rejected |
| ActionSafety.ExecutionNeedsAtomicity | src/actions/executor.ts:13-31 | two executions that both pass the check would both be logged |
| ActionSafety.CompletedSkillIsEnabledIff | src/actions/executor.ts:74-80 | a completed execution enables its skill exactly when the skill was approved or enabled before |
| ActionSafety.CompletedWithoutEnabling | src/actions/executor.ts:74-80 | enabling a disabled skill is logged as completed and leaves it disabled |
| ActionSafety.SkippedKeysDoNotMatter | src/actions/policy.ts:40-48 | the verdict depends on nothing under a skipped key |
| ActionSafety.DangerousTextIsRejected | src/actions/policy.ts:18-29 | one dangerous text anywhere in the payload, outside skipped keys, rejects it, for patterns that also match among spaces, as all ten do |
| ActionOutcomes.CreateOutcome | src/actions/proposal.ts:8-38 | one row for a known session, rejected exactly if the text of its payload is dangerous |
| ActionOutcomes.DecideOutcome | src/actions/approval.ts:14-38 | what may be decided in which status, what it changes, and which refusal is answered else |
| ActionOutcomes.ExecuteOutcome | src/actions/executor.ts:10-82 | only an approved proposal of the user runs; what goes out is blocked, what cannot be done fails and changes nothing, and what each other action does to tasks, facts and skills |
| ActionOutcomes.CollectedIff | src/actions/policy.ts:40-48 | the policy reads exactly the texts under no skipped key |
| ActionOutcomes.DangerousIsRejected | src/actions/policy.ts:18-29 | a dangerous text anywhere in a payload has its proposal stored as rejected |
| ActionService.Actions.CreateActionProposal | src/actions/proposal.ts:8-38 | one row, proposed or rejected by the policy, or nothing for an unknown session |
| ActionService.Actions.DecideActionProposal | src/actions/approval.ts:14-38 | the refusals by status and decision, or the new status with one approval row |
| ActionService.Actions.ExecuteInternal | src/actions/executor.ts:39-82 | what each action changes, and when it fails and changes nothing |
| ActionService.Actions.RecordExecution | src/actions/executor.ts:84-88 | one log row is appended |
| ActionService.Actions.MarkProposal | src/actions/executor.ts:90-92 | one proposal's status changes |
| ActionService.Actions.ExecuteActionProposal | src/actions/executor.ts:10-37 | not found, not approved, blocked, completed or failed, each with its log and status |
| Portability.Memory.ImportMemorySkills | src/brain/memory-skills-portability.ts:73-137 | a payload that does not parse changes nothing; else the admitted rows, the counts and the warnings |
| Portability.Memory.FilterFacts | src/brain/memory-skills-portability.ts:89-110 | the admitted facts as proposed rows and a warning for each other one, in order |
| Portability.Memory.FilterSkills | src/brain/memory-skills-portability.ts:112-127 | the safe skills as proposed rows and a warning for each other one |
| Portability.ParseFacts | src/brain/memory-skills-portability.ts:149-159 | facts parse exactly when each has a kind and a text |
| Portability.ParseSkills | src/brain/memory-skills-portability.ts:161-173 | skills parse exactly when each has its texts and steps |
| Portability.ImportTotals | src/brain/memory-skills-portability.ts:129-136 | imported plus skipped is the total, and every skip has one warning |
| Portability.ImportRespectsConsent | src/brain/memory-skills-portability.ts:89-109 | nothing sensitive, and no stress-support preference without opt-in, comes in unless allowed |
| Portability.ImportedSkillsAreSafe | src/brain/memory-skills-portability.ts:112-127 | every imported skill is safe as stored, after its texts are cut, and only proposed |
| Portability.ImportKeepsExportedSkills | src/brain/memory-skills-portability.ts:47 | an import changes nobody's exported skills, so imported ones do not travel on |
| Portability.RoundTripIff | src/brain/memory-skills-portability.ts:34-137 | export, import and export again give the same multiset of facts exactly when every fact is in range and every skill has its texts, or there was no fact |
| Portability.TableRoundTripIff | src/brain/memory-skills-portability.ts:34-137 | the same of a table: what one account exports survives exactly when each exported row is in range and each enabled skill has its texts, or no row is exported |
| Portability.LongFactIsCut | src/brain/memory-skills-portability.ts:149-159 | a confirmed fact of more than 1000 characters does not survive |
| Portability.TripDelivers | src/brain/memory-skills-portability.ts:89-110 | what arrives is, in order, every fact with its text cut and its confidence clamped, or nothing |
| Portability.ExportsExactly | src/brain/memory-skills-portability.ts:34-62 | each fact goes out as often as the account has it confirmed, or in a status asked for, and sensitive only if asked for |
| Portability.ExportsSkillsExactly | src/brain/memory-skills-portability.ts:47 | each skill goes out as often as the account has it enabled |
| Portability.FactIsRead | src/brain/memory-skills-portability.ts:149-159 | the text cut at 1000 characters, half confidence and low sensitivity where none is given |
| Portability.SkillIsRead | src/brain/memory-skills-portability.ts:161-173 | texts cut at 120, 500 and 250 characters, twenty steps of 500, low risk where none is given |
| Portability.RefusedImportIff | src/brain/memory-skills-portability.ts:139-173 | which fault of a payload refuses the import, exactly, and then nothing changes |
| Portability.ImportOutcome | src/brain/memory-skills-portability.ts:73-137 | what is added behind what is there, and the report |
| Portability.FactsEnter | src/brain/memory-skills-portability.ts:89-110 | each fact enters as its proposed row or leaves its warning, as often as it is there |
| Portability.SkillsEnter | src/brain/memory-skills-portability.ts:112-127 | each skill without a dangerous text enters as proposed, each other one leaves a warning with its name |
| Text.WordsCounted | src/evaluation/cue-quality.ts:47-49 | trim, split and filter find exactly the words that start after a space or at the beginning |
| Text.WordsOfJoin | src/cue/fast-cues.ts:118-119 | splitting a join of words gives the words back |
| Cues.LimitWordsKeepsPrefix | src/cue/fast-cues.ts:117-120 | the limiter leaves the first words of the text, at most the given number by the evaluator's count |
| Cues.EnforcedIsShort | src/cue/fast-cues.ts:108-115 | an enforced cue has min(words, 8) spoken words, a prefix of 180 characters to show, and a confidence in [0, 1] |
| Cues.EnforceIdempotent | src/cue/fast-cues.ts:108-115 | enforcing again changes nothing |
| Cues.EnforcedIs | src/cue/fast-cues.ts:108-115 | the first eight words, 180 characters and a confidence in [0, 1]; kind, urgency and delivery stay |
| Cues.TriggerCueIs | src/cue/fast-cues.ts:82-93 | an urgent trigger gives a fixed warning with its reason, in the ear where stakes are high |
| Cues.EnforcedNeverFailsIff | src/evaluation/cue-quality.ts:25-34 | no enforced cue fails the word check exactly when the configured maximum is at least 8 |
| Cues.GenerateFastCue | src/cue/fast-cues.ts:68-94 | the first matching rule, else the first urgent trigger, else nothing; what is given is already enforced |
| Cues.EvaluateCueQuality | src/evaluation/cue-quality.ts:14-45 | status and findings by the independent word count and the latency, and a score in [0, 1] that is 1 exactly when it passes |
| StableSorting.StableSortIsStable | src/mobile/notifications.ts:124 | the sort is an ascending permutation in which equal keys keep their order |
| StableSorting.StableSortUnique | src/daily/priority-ranker.ts:14 | any other stable sort gives the same result |

## Left out

- Postgres, HTTP routes, web sockets, the language model, search, Deepgram and LiveKit clients: their results are inputs or tables.
- Regular expressions, `normalizeUrl`, host classification, e-mail extraction and name normalisation: function parameters.
- The encoding of cursors: a cursor is a record or a text that does not decode; a decodable cursor with an unreadable date, which the database refuses, is not modelled.
- The account, Relay and storage sources of the merged sync: the first two are not ascending and capped (src/auth/account.ts:109-133, src/relay/mobile-sync.ts:14-29), and the file of the third, src/storage/mobile-sync.ts, is not part of this model.
- Text is a sequence of characters: where the source slices by UTF-16 code units inside a surrogate pair the result differs; white space is the set named in `Text.IsSpace`.
- Floating-point rounding, and numbers that are not numbers.
- Relay free-text columns, audit rows, messages and notifications, `expiresAt`, which nothing reads, and risk levels; addresses are taken as already lower-cased.
- Values in an import payload that are no strings, which the source turns into text.
- Rows that other features delete, such as discarding a session.
- `listTaskInbox`, reminders, effort and context texts of tasks, `nextWeekday` and the patterns of the extractor: easy members.
- Fit scores of investor leads, and the columns of a lead that neither duplicate detection nor merging reads.
- `outreach.investor_search` usage, whose name the count pattern misses, and the cooldown slots in Redis.
- Risk levels, titles, previews and expiry of action proposals; payload ids are positions.
- Usage recorded while composing an answer, source summaries, key findings and suggested actions of report packs, and the fields of stored citations beside url and title.
- The fixed texts of answers and caveats: named constants that say something.
- MobileNotifications.NotificationTable.Create: rows of equal stamps are listed in the order of insertion, which the database does not promise.
- Subagent tasks beside each other: priority, age and batch size of a claim, idempotency keys, and the deletion of a session's reports. Statements of a subagent execution do not fail, a death of its worker apart, and the clocks of workers and database agree.
- RelaySafety.RateLimitHolds: requires that a row is stamped no earlier than the clock reading that admitted it.
- Budget.DailySearchesBounded: counts recorded searches; a usage row that fails to be written is a failed call.
- Citations.SourcePolicyFor: allowed and preferred source types are not modelled; only src/research/quality.ts reads them, which is not part of this model.
