# atct: models and proofs

atct lets agents work on goals and tasks, passes their handoffs around, and asks a human to decide
where an agent cannot. This project models the parts of it that are small protocols, and proves what
they promise over every input, every interleaving and every run. `dafny verify dfyconfig.toml` checks
all of it.

| file | what it models |
|---|---|
| `BridgeQueue.dfy`, `CodexMonitor.dfy`, `BridgeRuns.dfy`, `BridgeDelivery.dfy` | the queue of agent actions that the Codex monitor submits one turn at a time: one critical section, the object, all interleavings of its goroutines, and the promises over runs |
| `RpcMux.dfy` | the request multiplexer to the Codex app server |
| `Acks.dfy` | the store of acknowledgements that suppresses watch actions |
| `HandoffTracker.dfy`, `EventStream.dfy`, `Resume.dfy`, `Sse.dfy`, `Paging.dfy` | the stream of handoff entries: what a connection knows, the channel and the polled scan, what the next connection makes of the last id, the printed form and its reader, and the paging behind a scan |
| `Wakeup.dfy`, `WatchOnce.dfy` | timed notifications: grace periods and resends, and delivery across processes that share a record |
| `Decisions.dfy`, `CappedLines.dfy` | the life of a decision, and the transcript reader behind an answer from the chat |
| `GoalReview.dfy`, `CommanderTargets.dfy` | the two implementations of "a rejected review is still owed", and the commander's list |
| `Receipt.dfy` | the list of unapplied answers that is sent only when it changed |
| `WatchRegistry.dfy` | watches that stop the older watches of their scope |
| `Text.dfy`, `Numbers.dfy` | strings, decimal integers, durations |

An object whose methods update its fields is a class here, and each of its methods is proved to do
what a function of the old state says. The same function is the step of a state machine, a run is a
sequence of such steps, and the lemmas are about all runs. Times are integers; where a result needs
the clock not to go back, the run or the lemma says so. The outcome of anything outside (a network
call, a query, a process that is signalled) is part of the step and may be anything the code handles.

## What was found

These are places where the code does less than its comments or callers suggest. Each names the
members that prove it: first the one with the exact condition, over all inputs or runs, then a case
that shows it.

- The pump removes the head of its queue by position after `StartTurn` (`cmd/atct/codex_monitor.go:897`).
  It removes the action it submitted exactly when no enqueue displaced that action during the call
  (`BridgeDelivery.CommitPopsOwnActionIff`). Otherwise a newer review that took its place is dropped
  without ever being submitted, and after a control message that emptied the queue the slice
  expression panics (`BridgeDelivery.OvertakenActionIsLost`).
- `Last-Event-ID` says what the client received last, not what it received. Over two connections, an
  old entry is sent by neither exactly when the first had not sent it and the second takes it as
  reported, and by both exactly when the first had and the second does not (`Resume.ResumedEntry`).
  Resuming is exact if and only if the first connection had written every entry up to the last id and
  none beyond (`Resume.ResumingIsExactIff`). Goal and task entries are numbered separately, so of two
  kinds of entries one can be lost, and with the same number the other is sent twice
  (`Resume.GoalEntryIsLost`). With one kind it can happen too, because a scan reads one handoff after
  another: an entry can be lost (`Resume.TornScanLosesAnEntry`) or sent twice
  (`Resume.TornScanSendsTwice`). The stream of one task can be cut after any entry and resumed exactly
  if and only if, whenever it wrote an entry, those it had written or taken as reported were exactly
  the ones with a smaller number (`Resume.TaskStreamResumesExactlyIff`). A scan that misses nothing that is there at its end
  keeps to that order (`Resume.CompleteScanIsOrderly`).
- A tick skips its scan when the watermark has not moved, but archived projects are not scanned, and
  restoring one does not move the watermark. A skipped scan would have changed nothing if and only if
  there is no unknown entry of a project that the last scan left out and that is not archived now;
  there is none unless a project was restored after that scan listed its goals
  (`EventStream.SkippedScanFindsNothingIff`). An entry of a restored project is not written by the
  ticks that skip (`EventStream.RestoredProjectIsSkipped`).
- When a body ends without an input error within an event, the frame reader sends a frame for it if
  and only if the cut comes no sooner than after its `data:`, with as much of the data as arrived
  (`Sse.CutIsDispatchedIff`, for every cut). Section 9.2.6 of the HTML standard discards an event that
  no blank line ends.
- `default_after_ms` is not bounded, and its product with a millisecond wraps around 64 bits. A
  default is never due early exactly when the delay is at most 9223372036854 ms
  (`Decisions.NeverDueEarlyIff`); one millisecond more and it is due at once
  (`Decisions.OverlongDelayFiresAtOnce`).
- The comment on `PollDecisions` says that an answer stays answered if the process dies before it
  returns. Applying is committed before the return. A decision is handed out at most once
  (`Decisions.AppliedExactlyOnce`): a poll that asks for it gets it if and only if no poll asked for it
  since it was answered (`Decisions.HandedOutByFirstPollIff`). So after a poll whose response is lost
  the next poll gets nothing (`Decisions.LostAnswerStaysLost`).
- The signature of the unapplied list does not tell all lists apart. Every signature belongs to exactly
  one list without a question that contains byte 1, a number and byte 0 in a row, and every other list
  shares its signature with such a one (`Receipt.OneClearListPerSignature`), so that a caller is not
  told of a change between them (`Receipt.AmbiguousListMisleads`).
- A delivery that could not be saved can be made again. An action that does not repeat is delivered
  again exactly when the process that is asked was armed since with a record that it could not read, or
  that was last saved without the key (`WatchOnce.DeliveredAgainIff`); the first process after the
  first delivery misses the key exactly when it could not read the record or no delivery of any action
  since was saved (`WatchOnce.FirstRearmForgetsIff`). So a failed save leads to a second delivery
  (`WatchOnce.FailedSaveDeliversTwice`) unless another action is saved in time
  (`WatchOnce.LaterSaveHeals`).
- A repeating event comes back more than its interval less one second later, because the record keeps
  whole seconds (`WatchOnce.DeliveredOnce`), and it can come back that early (`WatchOnce.ShortestRepeat`).
- An approved goal review goes from open to applied in one update (`internal/store/goal.go:729-732`):
  an applied decision was never answered if and only if it was approved
  (`Decisions.ApprovedIffNeverAnswered`).

## Model

| member | source | states |
|---|---|---|
| BridgeQueue.PrunedKeeps | cmd/atct/codex_monitor.go:791-805 | pruning removes exactly the actions it is meant for and keeps the order of the others |
| BridgeQueue.CoalescedReplacesInPlace | cmd/atct/codex_monitor.go:765-788 | a newer review takes the position of the review it replaces, or the end of the queue, and nothing else moves |
| BridgeQueue.EnqueuedKeepsInv | cmd/atct/codex_monitor.go:708-739 | every enqueue keeps: one queued review for each handoff, none older than a control or than the active action, distinct non-empty delivery keys of the others, arrival order |
| BridgeQueue.EnqueuedEntries | cmd/atct/codex_monitor.go:708-805 | an enqueue removes exactly the entries it displaces and adds exactly the action it admits, at the end or in the place of a review it supersedes |
| BridgeQueue.HeadStaysIff | cmd/atct/codex_monitor.go:752-843 | the head survives an enqueue if and only if the enqueue does not displace it |
| BridgeQueue.PlainQueued | cmd/atct/codex_monitor.go:724-739 | a plain action goes to the end of the queue; the receipt of a goal takes exactly the approvals queued for that goal out |
| CodexMonitor.Bridge.EnqueueAction | cmd/atct/codex_monitor.go:708-739 | the whole critical section: refused when blank, disabled or a duplicate key, otherwise exactly the enqueue the invariants are about, and pump follows only then |
| CodexMonitor.Bridge.EnqueueWatchAction | cmd/atct/codex_monitor.go:741-750 | the action of a watch is a review exactly when its event, handoff and generation say so |
| CodexMonitor.Bridge.EnqueueReviewAction | cmd/atct/codex_monitor.go:752-789 | a stale review changes nothing; a fresh one replaces every queued review of its handoff |
| CodexMonitor.Bridge.CoalesceQueue | cmd/atct/codex_monitor.go:770-788 | the filtering loop that replaces in place |
| CodexMonitor.Bridge.PruneQueued | cmd/atct/codex_monitor.go:791-843 | both pruning loops |
| CodexMonitor.Bridge.RememberReviewControlGeneration | cmd/atct/codex_monitor.go:807-818 | the generation remembered for a handoff is the greatest seen |
| CodexMonitor.Bridge.HasKey | cmd/atct/codex_monitor.go:820-833 | a non-empty key is found if and only if the active action or a queued one carries it |
| CodexMonitor.Bridge.Reserve | cmd/atct/codex_monitor.go:845-862 | a turn is reserved for the head exactly when the bridge is enabled, idle, attached and has an action |
| CodexMonitor.Bridge.Unreserve | cmd/atct/codex_monitor.go:864-870 | without a turn starter the bridge is idle again and its queue is as before |
| CodexMonitor.Bridge.Settle | cmd/atct/codex_monitor.go:872-901 | what each outcome of StartTurn does to the fields: accepted pops by position and panics exactly on an empty queue, an unknown outcome disables |
| CodexMonitor.Bridge.AttachThread | cmd/atct/codex_monitor.go:911-923 | the thread and activity taken over, and when pump follows |
| CodexMonitor.Bridge.ThreadStarted | cmd/atct/codex_monitor.go:994-1069 | only the first thread is adopted |
| CodexMonitor.Bridge.TurnStarted | cmd/atct/codex_monitor.go:1024-1043 | a turn of the attached thread, and of no other, makes the bridge active |
| CodexMonitor.Bridge.TurnEnded | cmd/atct/codex_monitor.go:994-1081 | a completed turn or idle status of the attached thread, and of no other, frees the bridge, and pump follows only then |
| BridgeRuns.StepKeepsInv | cmd/atct/codex_monitor.go:708-1081 | each step of any goroutine keeps the invariant of the whole system |
| BridgeRuns.ReachableStatesAreSound | cmd/atct/codex_monitor.go:708-1081 | in every reachable state of every interleaving the queue invariants hold, one goroutine at most is past the submit lock, and what is submitted precedes what is queued |
| BridgeDelivery.AtMostOneStartTurn | cmd/atct/codex_monitor.go:845-903 | at most one StartTurn is running |
| BridgeDelivery.SubmissionsSeparatedByIdle | cmd/atct/codex_monitor.go:845-1069 | after an accepted turn the next submission begins only after an idle transition |
| BridgeDelivery.BeginsIff | cmd/atct/codex_monitor.go:845-862 | over all runs, a goroutine that looks at the bridge submits if and only if something is queued, the thread is known, the agent is not busy as far as the events tell, and no reply was fatal |
| BridgeDelivery.UnknownOutcomeIsFinal | cmd/atct/codex_monitor.go:872-895 | after one submission with unknown outcome the bridge stays disabled and nothing is submitted again |
| BridgeDelivery.DisabledIff | cmd/atct/codex_monitor.go:872-895 | the bridge is disabled if and only if a submission ended with an unknown result, a lost app server, or an answer without a turn id |
| BridgeDelivery.DefiniteErrorFreesBridge | cmd/atct/codex_monitor.go:874-887 | any other error leaves the bridge enabled and idle and its queue as it was |
| BridgeDelivery.RetriedAfterDefiniteError | cmd/atct/codex_monitor.go:845-903 | the next submission after it is of the same action if and only if no enqueue displaced it |
| BridgeDelivery.NothingStrandedAtRest | cmd/atct/codex_monitor.go:708-923 | when no goroutine is in pump and no failure is behind, nothing that could be submitted waits |
| BridgeDelivery.SubmittedInArrivalOrder | cmd/atct/codex_monitor.go:845-903 | submissions follow the arrival order of their slots, and no slot is submitted twice |
| BridgeDelivery.NoReviewOlderThanControl | cmd/atct/codex_monitor.go:752-818 | no queued or newly started review is older than any control heard before for its handoff |
| BridgeDelivery.ActiveActionIs | cmd/atct/codex_monitor.go:856-895 | the bridge remembers exactly the action it submitted last, until the agent is idle or the submission fails |
| BridgeDelivery.VerdictIs | cmd/atct/codex_monitor.go:708-739 | over all runs, which actions are refused: blank ones, all after a fatal reply, and a plain one whose key is queued or was submitted last and not forgotten |
| BridgeDelivery.ReviewQueuedIff | cmd/atct/codex_monitor.go:752-789 | a review is queued if and only if it is newer than every control, submitted and queued review of its handoff; otherwise nothing changes |
| BridgeDelivery.CommitPopsOwnActionIff | cmd/atct/codex_monitor.go:864-897 | the commit pops the submitted action if and only if no enqueue displaced it during the call |
| BridgeDelivery.EveryActionAccountedFor | cmd/atct/codex_monitor.go:708-903 | an action that was ever queued is still queued or left by its submission, a newer review in its place, a control, the receipt of its goal, or by being dropped |
| BridgeDelivery.AdmittedActionAccountedFor | cmd/atct/codex_monitor.go:708-903 | every action that is admitted is queued by that step, and accounted for in the same way from then on |
| BridgeDelivery.DroppedOnlyAfterDisplacement | cmd/atct/codex_monitor.go:845-903 | an action is dropped only after an enqueue displaced the one in flight |
| BridgeDelivery.NothingDropped | cmd/atct/codex_monitor.go:845-903 | in a run where submissions are not displaced nothing is dropped |
| BridgeDelivery.NoPanic | cmd/atct/codex_monitor.go:897 | in such a run the commit never slices an empty queue |
| BridgeDelivery.OvertakenActionIsLost | cmd/atct/codex_monitor.go:864-897 | for any two reviews of which the second supersedes the first, a run that loses the second, or panics when it is a control |
| RpcMux.AppServer.Open | cmd/atct/codex_monitor.go:305-330 | a call gets an id that no channel and no pending entry has, an empty channel and a pending entry: the steps Allocate and Register |
| RpcMux.AppServer.RemovePending | cmd/atct/codex_monitor.go:393-397 | a call that gives up takes its own id out of the table |
| RpcMux.AppServer.TakePending | cmd/atct/codex_monitor.go:217-228 | the critical section of a response: its id stops being pending, an unknown id stops the reader |
| RpcMux.AppServer.SendResponse | cmd/atct/codex_monitor.go:229 | the send after it always finds room |
| RpcMux.AppServer.Dispatch | cmd/atct/codex_monitor.go:174-231 | a response goes to the channel of its own id in two steps, Take and Send; an unknown id ends the loop |
| RpcMux.AppServer.DrainPending | cmd/atct/codex_monitor.go:269-292 | failing sends one failure to every pending channel and to no other, and empties the table |
| RpcMux.ReachableStatesAreSound | cmd/atct/codex_monitor.go:174-397 | in every interleaving of calls, reader, cancellation and failure the table, the channels and the calls are consistent |
| RpcMux.NoSendBlocks | cmd/atct/codex_monitor.go:174-292 | a pending id has an empty one-slot channel, so no send blocks |
| RpcMux.EachCallGetsItsOwnAnswer | cmd/atct/codex_monitor.go:174-362 | each channel gets at most one value: the response with its own id or the failure |
| RpcMux.AnswersHaveCauses | cmd/atct/codex_monitor.go:174-362 | a result is the payload of a response with the id of the call while it was pending, a failure found the call pending, and a call that gave up has its own reason |
| RpcMux.ResponseIsDelivered | cmd/atct/codex_monitor.go:217-230 | the payload of a response to a pending id is what its channel holds once it is sent |
| RpcMux.DrainFailsPending | cmd/atct/codex_monitor.go:269-292 | failing puts the failure in the channel of every pending call and of no other |
| RpcMux.FailureIs | cmd/atct/codex_monitor.go:269-292 | failing happens once, and done is closed only after every pending call has its failure |
| RpcMux.NoPendingAfterReturn | cmd/atct/codex_monitor.go:305-397 | when all calls have returned, no id is left in the table |
| RpcMux.EveryCallReturnsAfterDone | cmd/atct/codex_monitor.go:269-362 | once done is closed a call can always move, and every own step brings it nearer to returning |
| RpcMux.ReturnsAlone | cmd/atct/codex_monitor.go:269-362 | once done is closed any call returns by its own steps and nothing else |
| Acks.Acknowledgements.Acknowledge | cmd/atct/codex_monitor_ack.go:82-96 | a valid acknowledgement adds its token, and for a goal request a candidate that lives five minutes |
| Acks.Acknowledgements.Consume | cmd/atct/codex_monitor_ack.go:98-115 | what one question uses up, and whether it suppresses |
| Acks.Acknowledgements.SubcommanderLaunched | cmd/atct/codex_monitor_ack.go:117-133 | a launch turns a live candidate into an armed receipt |
| Acks.Acknowledgements.PruneLocked | cmd/atct/codex_monitor_ack.go:212-223 | exactly the expired entries go |
| Acks.CandidateIffWaits | cmd/atct/codex_monitor_ack.go:82-133 | under a clock that never goes back a live candidate is exactly a request acknowledged within five minutes and not launched since |
| Acks.SuppressedIffTokenWaits | cmd/atct/codex_monitor_ack.go:82-133 | an action is suppressed if and only if an unused acknowledgement of its key waits, or an unused launch less than five minutes old that used up such a request |
| Acks.AcknowledgedIsSuppressed | cmd/atct/codex_monitor_ack.go:82-115 | an acknowledged action is suppressed when it is next asked for |
| Acks.LaunchSuppressesReceive | cmd/atct/codex_monitor_ack.go:82-133 | a launch within five minutes of the acknowledged goal.handoff.request suppresses the goal.handoff.receive of the same goal and handoff for five minutes |
| Acks.OnlyLaunchesSuppress | cmd/atct/codex_monitor_ack.go:82-133 | an action without an acknowledgement of its own is suppressed only if it is of that class and both calls came in that order and time |
| Acks.SuppressionsBounded | cmd/atct/codex_monitor_ack.go:82-133 | over any run the suppressions of a key never exceed its acknowledgements and successful launches |
| HandoffTracker.KeyTextInjective | internal/httpapi/handoff.go:147-152 | the key text names one entry of one handoff in one scope |
| HandoffTracker.SameKeyTextIff | internal/httpapi/handoff.go:147-152 | events have the same key text if and only if scope, handoff and id are the same |
| HandoffTracker.KeyTextCollides | internal/httpapi/handoff.go:147-152 | a scope with a colon gives a key text that another key has too |
| HandoffTracker.KeyTextUniqueIff | internal/httpapi/handoff.go:147-152 | a key text has one reading if and only if neither scope nor handoff id contains a colon |
| HandoffTracker.Tracker.constructor | internal/httpapi/handoff.go:158-202 | what a new stream takes as known, from its first scan, its baseline and Last-Event-ID |
| HandoffTracker.Tracker.Mark | internal/httpapi/handoff.go:204-214 | an entry is new exactly the first time it is marked |
| HandoffTracker.UnknownIff | internal/httpapi/handoff.go:158-202 | which entries of the first scan are still to be written |
| HandoffTracker.KnownAtStartIff | internal/httpapi/handoff.go:158-202 | a stream knows a record at its start if and only if it was created before the baseline, and not after the first such record with the id the client names |
| HandoffTracker.OneScopeResumesAfterLast | internal/httpapi/handoff.go:158-202 | with one id space a resumed stream has still to report exactly the entries that are new or come after the one the client names |
| HandoffTracker.ResumeLosesIff | internal/httpapi/handoff.go:181-192 | exactly which old entries a resumed stream takes as reported: those with a smaller id, the first with the very id, or all when none has it |
| Resume.KnownIffTaken | internal/httpapi/handoff.go:158-202 | a new stream knows a stored record at its start if and only if it takes it as reported |
| Resume.SendsIff | internal/httpapi/server.go:1902-1991 | after a tick that ends well and covers an entry, a connection has sent it exactly when the filter admits it and the stream did not know it at its start |
| Resume.ResumedEntry | internal/httpapi/server.go:1902-1991 | for every old entry, exactly when neither of two connections sends it and when both do |
| Resume.ResumingIsExactIff | internal/httpapi/handoff.go:158-202 | what two connections send makes up every old entry once if and only if the first had written exactly the entries up to the last id |
| Resume.StepInOrderIff | internal/httpapi/server.go:1942-1988 | an event keeps the entries written in order if and only if each record it writes is the next in order |
| Resume.TaskStreamResumesExactlyIff | internal/httpapi/server.go:1902-1991 | the stream of one task can be cut after any entry and resumed exactly if and only if each of its published events and scanned records was written in order |
| Resume.CompleteScanIsOrderly | internal/httpapi/handoff.go:491-558 | without a monitor token a sorted scan that misses nothing that is there at its end writes in order, if nothing is out of order before it |
| Resume.CompleteScanKeepsPastFirst | internal/httpapi/handoff.go:491-558 | after such a scan everything wanted was written, so that the next one is in order too |
| Resume.OrderlyStreamIsResumedExactly | internal/httpapi/server.go:1902-1991 | then what the two connections send makes up every entry once, wherever the first was cut |
| Resume.GoalEntryIsLost | internal/httpapi/handoff.go:181-192 | for any task entry received last and any goal entry appended after it with an id not above its own, two connections that both fail to send the goal entry, and both send the task entry when the ids are equal |
| Resume.TornScanLosesAnEntry | internal/httpapi/handoff.go:491-511 | for any two entries of one task, appended while a scan reads their handoffs, two connections that both fail to send the earlier |
| Resume.TornScanSendsTwice | internal/httpapi/handoff.go:491-511 | cut one tick later, two connections that both send the later |
| Resume.GoalThreeIsLost | internal/httpapi/handoff.go:181-192 | with task entry 7 received last, goal entry 3 is sent by neither connection |
| Resume.TaskSevenIsLost | internal/httpapi/handoff.go:491-511 | with entries of one task, entry 8 written and entry 7 missed by the scan, entry 7 is sent by neither connection |
| EventStream.Connection.OnPublished | internal/httpapi/server.go:1942-1962 | the channel branch: an entry is judged once by eventPasses, malformed ones not at all |
| EventStream.Connection.OnTick | internal/httpapi/server.go:1963-1988 | the tick branch: skipped exactly when the watermark equals the last scan's, otherwise every record is judged in order by eventPasses |
| EventStream.ReachableStatesAreSound | internal/httpapi/server.go:1902-1991 | at every step, whatever is archived or restored, a remembered watermark vouches that all entries below it which its scan covered are known |
| EventStream.WrittenAtMostOnce | internal/httpapi/server.go:1942-1988 | each entry is written at most once per connection, from the channel or a scan |
| EventStream.SkippedScanFindsNothingIff | internal/httpapi/server.go:1964-1968 | a tick that skips its scan would have found nothing if and only if no unknown entry is of a project that was archived for the last scan and is not now; which needs a project restored in between |
| EventStream.RestoredProjectIsSkipped | internal/store/queries/goal.sql:77-84 | a run in which a project is restored and the next tick skips a scan that would write its entry |
| EventStream.VerdictsAreEventPasses | internal/httpapi/server.go:1831-1864 | what is written is exactly what eventPasses lets through |
| EventStream.ScanLooksForAdmitted | internal/httpapi/handoff.go:491-545 | a scan looks for exactly the entries eventPasses would let through, own entries aside |
| EventStream.TickLeavesNothingUnwritten | internal/httpapi/server.go:1902-1991 | after a tick that ends well every entry that was there when it began, whose project its scan or the one it relies on did not leave out, and that was not taken as reported at the start, has been written if and only if the filter admits it and the session was a party when it was first seen, or none were known |
| EventStream.NewEntryIsWritten | internal/httpapi/server.go:1919-1988 | so entries after the baseline, after Last-Event-ID and appended later, of projects that are not archived during the connection, are settled, and without a monitor token written exactly when the filter admits them |
| EventStream.TickIsOneTurn | internal/httpapi/server.go:1963-1988 | the steps of a tick, with appends, archiving and restoring between them, are one turn of the tick branch |
| Sse.ReadFrames | cmd/atct/watch.go:1459-1524 | the reader loop over a whole body, its line limit and its last event |
| Sse.FeedLine | cmd/atct/watch.go:1475-1515 | what one line does to the reader's variables |
| Sse.FieldLine | cmd/atct/watch.go:1484-1515 | what a name, an id and a data line each set, and that they leave the rest |
| Sse.CRLFEndsLine | cmd/atct/watch.go:1459-1475 | a carriage return before the newline is not part of a line |
| Sse.RoundTrip | internal/httpapi/server.go:1993-2007 | reading what was written for any events yields exactly their frames in order, with their own id or none |
| Sse.ReadAfterEvents | cmd/atct/watch.go:1459-1524 | nothing leaks from written events into the text that follows them |
| Sse.OverlongLineStops | cmd/atct/watch.go:1459-1524 | a line that does not fit ends the reading with an error: whole events before it are sent and the unfinished one is not |
| Sse.DecimalIDIsPrintable | internal/httpapi/server.go:1998-2004 | the id line the server prints is one the round trip covers |
| Sse.CutIsDispatchedIff | cmd/atct/watch.go:1459-1524 | wherever a body ends within an event, a frame is sent for it if and only if its `data:` arrived, with as much of the data as arrived |
| Paging.PageFollows | internal/store/handoff_entry.go:307-373 | a page from a cursor holds the next entries, and says rightly whether more follow |
| Paging.AppendHandoffEntryRecords | internal/httpapi/handoff.go:471-489 | the loop ends against any pager; a cursor that does not advance is an error |
| Paging.HistoryIsGatheredOnce | internal/httpapi/handoff.go:471-489 | while entries are appended during a scan, it gathers the history as of its last page, every entry once in id order; a failing scan has gathered a beginning of it |
| Wakeup.WakeupKeyInjective | internal/daemon/wakeup.go:61-63 | a key names one target of one kind |
| Wakeup.WakeupTracker.PublishWakeup | internal/daemon/wakeup.go:65-92 | one touch of a key: the new entry and whether to publish |
| Wakeup.WakeupTracker.EvaluateProject | internal/daemon/wakeup.go:107-319 | one project: archived, failing, mismatched twice or not, and its wakeups in turn |
| Wakeup.WakeupTracker.EvaluateWith | internal/daemon/wakeup.go:98-329 | one evaluation over all projects, with its events and whether it failed |
| Wakeup.WakeupTracker.PruneWakeups | internal/daemon/wakeup.go:323-327 | after a clean evaluation exactly the keys it saw remain |
| Wakeup.NeverEarly | internal/daemon/wakeup.go:65-92 | every publication comes after the grace period of a presence that lasted without a break |
| Wakeup.ExactlyOnce | internal/daemon/wakeup.go:65-92 | without a resend interval a key that outlives its grace period is published exactly once in its presence |
| Wakeup.PublishedIff | internal/daemon/wakeup.go:65-92 | a touch publishes if and only if the grace period of its presence is over and nothing was published in it, or its resend interval has passed since the last publication |
| Wakeup.ResendGap | internal/daemon/wakeup.go:65-92 | two publications in one presence are at least the resend interval apart |
| Wakeup.AtMostOncePerInterval | internal/daemon/wakeup.go:65-92 | at most one publication for each interval the presence lasted, and one more |
| Wakeup.EventsAreThePublications | internal/daemon/wakeup.go:98-329 | over any evaluations, failing or not, the events returned for a key are exactly the publications of its history |
| Wakeup.EachWakeIsTouched | internal/daemon/wakeup.go:157-319 | that history has one touch for each wakeup found, at the time of its evaluation |
| Wakeup.FailureLosesNothing | internal/daemon/wakeup.go:320-328 | a newly published key has its event even when an error is returned, and a failing evaluation resets no key |
| Wakeup.DiscrepancyReportedAtFirst | internal/daemon/wakeup.go:123-156 | a mismatch of the counts that a second look confirms is reported once, at its first look |
| Wakeup.DiscrepancyReportedOnce | internal/daemon/wakeup.go:139-156 | it is not reported again over any evaluations until a look finds the counts to agree |
| Wakeup.LookIs | internal/daemon/wakeup.go:107-156 | what one look does, in terms of the two counts of each of its reads: which projects fail, are passed over, have a discrepancy, and report it |
| WatchOnce.WatchOnce.constructor | cmd/atct/watch_once.go:36-52 | the record is loaded, or empty when it cannot be read |
| WatchOnce.WatchOnce.Sink | cmd/atct/watch_once.go:70-95 | what is passed on, recorded, saved and ended; a failed delivery is not recorded |
| WatchOnce.DeliveredAgainOnlyWhenDue | cmd/atct/watch_once.go:57-95 | a second delivery that no process forgot is of a repeating event, more than its interval less one second later |
| WatchOnce.DeliveredOnce | cmd/atct/watch_once.go:36-95 | across any number of processes whose saves succeed, the same from the first delivery on |
| WatchOnce.KeyInjective | cmd/atct/watch_once.go:75 | the record tells generations of one delivery key apart |
| WatchOnce.NewGenerationIsDelivered | cmd/atct/watch_once.go:70-95 | a generation never delivered under its delivery key is delivered and recorded |
| WatchOnce.SkippedOnlyIfDelivered | cmd/atct/watch_once.go:70-95 | an action is skipped only when its key was delivered before and is not due |
| WatchOnce.OnlyDeliveriesAreRecorded | cmd/atct/watch_once.go:70-95 | a failed delivery and a controlling action change nothing, and no delivery changes the entry of another key |
| WatchOnce.ShortestRepeat | cmd/atct/watch_once.go:57-88 | the bound on repeats is reached to the nanosecond |
| WatchOnce.DeliveredAgainIff | cmd/atct/watch_once.go:36-95 | an action that does not repeat is delivered again if and only if the watching process was armed since with a record that it could not read or that was last saved without the key |
| WatchOnce.FirstRearmForgetsIff | cmd/atct/watch_once.go:36-95 | the first process after the first delivery misses the key if and only if it could not read the record or no delivery since was saved |
| WatchOnce.FailedSaveDeliversTwice | cmd/atct/watch_once.go:85-90 | a failed save with none after it makes the next process deliver again |
| WatchOnce.LaterSaveHeals | cmd/atct/watch_once.go:84-97 | a failed save is made good by the next save of any action |
| Decisions.Store.ValidateDecisionDefault | internal/store/decision.go:98-114 | which defaults a question may have |
| Decisions.Store.AskDecision | internal/store/decision.go:35-96 | the new row, with its creation time in whole seconds |
| Decisions.Store.AnswerDecisionWith | internal/store/decision.go:307-359 | an answer takes effect only from open, and only with an unused prompt; otherwise nothing changes |
| Decisions.Store.ApproveGoalReviewWith | internal/store/goal.go:708-759 | an approval applies an open review of an active goal at once |
| Decisions.Store.RejectGoalReviewWith | internal/store/goal.go:769-804 | a rejection answers an open review |
| Decisions.Store.ApplyExpiredDefaults | internal/store/decision.go:364-433 | exactly the open decisions whose default is due are answered by it |
| Decisions.Store.WithdrawDecision | internal/store/decision.go:435-478 | only an open decision can be withdrawn |
| Decisions.Store.PollDecisions | internal/store/decision.go:483-536 | exactly the answered decisions asked for are handed out, and become applied |
| Decisions.Store.ReassignGoalDecisionsToReceiver | internal/store/queries/goal_handoff.sql:55-66 | exactly the open and answered decisions of the earlier receivers go to the new one, and nothing else changes |
| Decisions.Store.AnswerFromChat | internal/daemon/decision_answer.go:51-103 | the answer is written with the newest message that answered no other decision, or not at all |
| Decisions.ChatAnswerIs | internal/daemon/decision_answer.go:76-104 | what a chat answer makes of each kind of decision, and the source it records |
| Decisions.ReachableTablesAreSound | internal/store/decision.go:35-536 | in every reachable table no prompt answers two decisions, and every default is one of the options |
| Decisions.DecisionEvolves | internal/store/decision.go:299-536 | a decision only moves from open to answered to applied or from open to withdrawn, and its answer is final once it is not open |
| Decisions.AnswerIsKept | internal/store/decision.go:307-359 | an answer, approval, rejection, withdrawal or default that settles an open decision is in the row at every later time, with exactly its label, text, source and time |
| Decisions.AnswerWasGiven | internal/store/decision.go:299-478 | every decision that is not open was settled by such an event, with exactly the answer it has |
| Decisions.QuestionIsKept | internal/store/decision.go:35-96 | a valid question is open as asked, and stays as asked; an invalid one changes nothing |
| Decisions.AppliedExactlyOnce | internal/store/decision.go:480-536 | an applied decision was handed out by exactly one poll or approved by exactly one approval |
| Decisions.HandedOutByFirstPollIff | internal/store/decision.go:480-536 | a poll that asks for an answered decision, by its id or its session at the time, hands it out if and only if no poll has handed it out since, or asked for it since |
| Decisions.HandedOutIsApplied | internal/store/decision.go:483-536 | what a poll hands out is applied from then on at the time of the poll, with the answer it had |
| Decisions.SessionFollowsReceiver | internal/store/queries/goal_handoff.sql:55-66 | who may poll for a decision changes only by a handover of its goal, from an earlier receiver to the new one, and only before it is applied |
| Decisions.LostAnswerStaysLost | internal/store/decision.go:480-536 | after a poll whose response is lost the next poll hands out nothing |
| Decisions.ApprovedIffNeverAnswered | internal/store/goal.go:708-759 | an applied decision was never answered if and only if it was approved |
| Decisions.DefaultIsTimely | internal/store/decision.go:361-433 | an applied default was an option, found the decision open, and came no sooner than the stored creation time and delay unless the delay wraps |
| Decisions.NeverDueEarlyIff | internal/store/decision.go:384 | a default is never due early if and only if its delay in nanoseconds fits 64 bits |
| Decisions.OverlongDelayFiresAtOnce | internal/store/decision.go:98-114 | a validated delay that is answered at the moment of asking |
| CappedLines.ReadCappedLine | internal/daemon/decision_answer.go:592-608 | however the buffer splits the input, exactly the next line or that it is too long, with the reader just past it; the end of the input, or its error, comes only with a line that no newline ends |
| CappedLines.ScanTranscript | internal/daemon/decision_answer.go:559-588 | the scan ends; it fails exactly when the input ends in an error, and otherwise has matched exactly the short lines in file order |
| CappedLines.LinesCutAtNewlines | internal/daemon/decision_answer.go:559-608 | the lines visited are the file cut after each newline and nowhere else |
| CappedLines.EachLineMatched | internal/daemon/decision_answer.go:559-588 | each line of at most the limit adds what it matches in its place, and a longer one nothing |
| GoalReview.RejectedGoalReviewTargets | cmd/atct/watch_scope.go:205-233 | the client's two passes over decisions and its search for a handoff |
| GoalReview.GoalPendingState | internal/store/goal_pending_state.go:35-64 | the store's two loops |
| GoalReview.RejectedTargetIff | cmd/atct/watch_scope.go:205-244 | on the fields of the snapshot, exactly which decisions have a target, and with which handoff |
| GoalReview.PendingStateIs | internal/store/goal_pending_state.go:35-64 | the state in terms of the rows: any approval decides, then whether the last review was rejected, then whether a handoff still waits for that rejection |
| GoalReview.LatestIsLast | cmd/atct/watch_scope.go:206-211 | the client's greatest number is the store's last row |
| GoalReview.ClientAgreesWithStore | cmd/atct/watch_scope.go:205-244 | for an active goal the client names it and no review was approved if and only if the store says rejected_pending_handoff_reject |
| CommanderTargets.OneTargetPerGoal | cmd/atct/watch_scope.go:93-140 | one review target at most for each goal, none for a goal with an open review, and for any other goal the first of its highest category |
| CommanderTargets.GoalListedIff | cmd/atct/watch_scope.go:93-140 | on the fields of the snapshot, exactly which goals have a review target |
| CommanderTargets.AwaitingIff | cmd/atct/watch_scope.go:117-127 | exactly the handoffs whose review was requested and not received, unless their goal is stopped |
| CommanderTargets.ReceivedIff | cmd/atct/watch_scope.go:128-134 | exactly the handoffs whose review was received, of active goals without an approval, with the decisions that hold them back |
| CommanderTargets.ApprovedIff | cmd/atct/watch_scope.go:135-140 | exactly the active goals with an approved review |
| CommanderTargets.ApprovalAgreesWithStore | cmd/atct/watch_scope.go:135-140 | for an active goal the client has such a target if and only if the store says approved_pending_complete |
| CommanderTargets.OverdueListedIff | cmd/atct/watch_scope.go:147-179 | the tail lists the answers that waited more than ten minutes and no others |
| CommanderTargets.OverdueListedExactly | cmd/atct/watch_scope.go:147-179 | each as often as there are such decisions |
| CommanderTargets.OverdueInOrder | cmd/atct/watch_scope.go:173-178 | in ascending order of their ids |
| CommanderTargets.BlockersAreTheOpenOnes | cmd/atct/watch_scope.go:183-199 | the ids that hold a goal back are those of its open decisions of the other kinds |
| CommanderTargets.OpenDecisionIDsAre | cmd/atct/watch_scope.go:183-199 | the list has exactly the numbers of those decisions |
| CommanderTargets.OpenDecisionIDsInOrder | cmd/atct/watch_scope.go:193-198 | in ascending order |
| CommanderTargets.SortedIsSorted | cmd/atct/watch_scope.go:193-198 | sorting keeps the elements and orders them |
| CommanderTargets.OpenDecisions | cmd/atct/watch_scope.go:183-199 | the loop that collects them |
| CommanderTargets.UnappliedAnswerTargets | cmd/atct/watch_scope.go:147-179 | the loop over the decisions |
| CommanderTargets.CommanderLivenessTargets | cmd/atct/watch_scope.go:93-141 | the whole list: the review targets, then the overdue answers |
| Numbers.ParseDecimal | cmd/atct/watch_scope.go:156 | an id that was formatted is parsed back |
| Receipt.UnappliedSignature | internal/mcpshim/receipt.go:148-157 | the loop that writes the signature |
| Receipt.SignatureInjective | internal/mcpshim/receipt.go:148-157 | lists without ambiguous questions differ in their signatures |
| Receipt.AmbiguousCollides | internal/mcpshim/receipt.go:148-157 | every other list shares its signature with a longer one |
| Receipt.OneClearListPerSignature | internal/mcpshim/receipt.go:148-157 | each signature is that of exactly one list without ambiguous questions, so they are the most the signature tells apart |
| Receipt.Client.ReconcileUnapplied | internal/mcpshim/receipt.go:162-185 | what a response says, and what is remembered |
| Receipt.SaysIs | internal/mcpshim/receipt.go:159-185 | after any calls, exactly when a response has the list and when only its length |
| Receipt.CallerHoldsTheList | internal/mcpshim/receipt.go:159-185 | a caller that folds the responses it asked for always holds the current list, and a count is its length |
| Receipt.AmbiguousListMisleads | internal/mcpshim/receipt.go:159-185 | after any list with an ambiguous question a changed list can go untold |
| Receipt.PlainListsMustNotBeFolded | internal/mcpshim/receipt.go:162-168 | a caller must not fold the lists of calls that did not ask |
| WatchRegistry.Registry.ReapWatches | internal/daemonctl/watchreg.go:160-243 | one reap over the entries in order: stale files, processes stopped, those that would not stop, and a file that could not be removed |
| WatchRegistry.EntryIs | internal/daemonctl/watchreg.go:189-243 | one entry: what is removed, stopped, counted and reported, and when the reap is cut short |
| WatchRegistry.ReapSettles | internal/daemonctl/watchreg.go:160-243 | a reap that is not cut short removes every dead registration, and stops every live one that gives way or reports it as failed |
| WatchRegistry.ReapTakesNothingElse | internal/daemonctl/watchreg.go:160-243 | it stops no other process and removes no other file |
| WatchRegistry.OnlyScopedReap | internal/daemonctl/watchreg.go:160-175 | in every run a watch with neither project nor token stops no other, and one with either looks at every registration |
| WatchRegistry.StoppedByALaterOne | internal/daemonctl/watchreg.go:189-243 | a watch is stopped only by one of its own scope that comes after it by start time and pid |
| WatchRegistry.LastIsNeverStopped | internal/daemonctl/watchreg.go:160-243 | in every interleaving the last watch of a scope is never stopped |
| WatchRegistry.NoMutualStops | internal/daemonctl/watchreg.go:160-243 | no two watches can stop each other, in whatever order they try |
| WatchRegistry.ExactlyOneSurvives | internal/daemonctl/watchreg.go:94-243 | when the last live watch reaps after all registrations and what it signals ends, exactly it is left |

## Left out

- HTTP routes, MCP tools, command line, installation: each claim about them is settled by one branch.
- WebSocket, JSON, SQL, files and processes: their outcomes are parameters of the steps; rows are maps, and a conditional update is one step.
- Timers and goroutine scheduling: any order of steps that the locks allow is a run.
- `codexMonitorBridge.SetActive` (`cmd/atct/codex_monitor.go:905-909`): only tests call it.
- The arrival order kept beside each queued action and the parsed review generation kept in it are not fields of the bridge; no step reads the former, and the latter is what `codexReviewActionGeneration` returns.
- BridgeDelivery.NothingStrandedAtRest: does not say that a failed submission is retried by itself; it is by the next submission, which waits for an action or an idle transition (`BridgeDelivery.RetriedAfterDefiniteError`).
- RpcMux: malformed messages and server requests end in the same stop of the reader or are answered without touching the table; the write lock is not modelled.
- Acks: the connection that carries acknowledgements and the comparison of capabilities.
- HandoffTracker.KeyTextInjective: does not cover a scope that contains a colon, for which the key text collides; the store has the scopes goal and task only, and the tracker's keys are compared as triples.
- HandoffTracker.OneScopeResumesAfterLast: does not say that the client had received the others, which `Resume.ResumingIsExactIff` is about.
- Resume: more than two connections in a row are pairs of them; which entries a client shows, and when it reconnects, are not modelled.
- BridgeRuns: the bridge has a turn starter; without one every pump reserves, takes that back and submits nothing (`CodexMonitor.Bridge.Unreserve`).
- EventStream: events other than handoff entries, the shortened body, and a write to the client that fails, which ends the stream.
- EventStream.NewEntryIsWritten: is about projects that are not archived during the connection, because an entry of another project can go unwritten (`EventStream.RestoredProjectIsSkipped`).
- EventStream.TickLeavesNothingUnwritten: takes a published event to be about an entry in the store, in its own project; an event about something else could be judged in the place of an entry with the same key.
- Sse.ReadFrames: does not model a body that fails with an input error or a cancelled context.
- Sse.RoundTrip: does not cover names that are empty or have outer white space and data with line breaks, because event names are constants and the data is JSON on one line; characters stand for bytes.
- Paging: the shape of a record beyond its id and body, and the scan over several handoffs.
- Wakeup.WakeupTracker.EvaluateWith: the wakeups of a project and the query that fails, if any, are given; which wakeups the store finds, the contents of their events and `lostMonitorAt` are not modelled.
- WatchOnce.DeliveredOnce: does not cover two watches with one token running at the same time; the registry stops the older one.
- Decisions: the events published to subscribers, the checks of roles and quotes before a chat answer, and a commit that fails.
- Decisions.DefaultIsTimely: counts from the stored creation time, which can be up to one second before the question was asked.
- CappedLines: which lines of a transcript are human messages, and where the transcript is.
- CommanderTargets: the ids of a snapshot are sorted stably, and equal ids, which the database does not give out, may come in another order in the code.
- GoalReview.ClientAgreesWithStore: takes the snapshot to show the rows of the goal; how a snapshot is fetched and how old it is are not modelled.
- Receipt: concurrent calls, whose responses may arrive in another order than they were decided; the shaping of other responses.
- WatchRegistry.ExactlyOneSurvives: a watch that keeps running after its signal is reported by the reap and survives; a pid is not used twice.
- WatchRegistry: files that are not named by a pid are not modelled, and stopping a process together with waiting for its end is one step.
