# Verified model of the chat generation core

ChatCore-AI answers a chat message with a background generation job: a worker runs a loop of model
decisions and tool calls, streams the answer into a numbered event log, and lets any worker replay
that log to a reconnecting browser. This project models that core in Dafny and proves what its
parts promise over every input, every provider behaviour and every interleaving.

| file | models |
|---|---|
| Basics.dfy | the option type and minimum and maximum, shared by all |
| Continuation.dfy | joining a continued answer to the text already shown: overlap, rewrite detection, splice, and what a stop salvages |
| AnswerRecovery.dfy | streaming recovery of a cut-off answer, pass by pass |
| StopRace.dfy | a stop request racing with the worker that confirms an answer step |
| JobLog.dfy | the local event log of a job, its callbacks and its readers |
| Replay.dfy | a reader on another worker following the log through Redis |
| Locks.dfy | the active-job lock across workers, and its renewal timing |
| StartJob.dfy | starting a job, with every rollback |
| RetryLoop.dfy | the retrying model stream |
| AgentLoop.dfy | the budgets, the tool dispatch and the loop of model decisions |
| Tokens.dfy, Context.dfy | token estimates, trimming, history selection and context assembly |
| RateLimiter.dfy | the fixed-window rate limiter in memory and in Redis |
| Evidence.dfy | retrieving stored evidence within a character budget |

Concurrent parts are state machines: a run is a sequence of atomic steps, a step that is not enabled
changes nothing, and results are stated for every sequence. Providers, tools, users and clocks are
arbitrary: a function from the number of the call to what happens in it. Code that updates objects
is a class whose methods are proved against functions of the old state, and the results are proved
about those functions.

Findings where the code does not do all that one would expect of it:

- A stop that falls between two chunk deliveries agrees with the normal flush when both look at the
  same existing text. The stop looks at the chunk list, which may carry a search trace in front of
  the streamed answer, and then a rewrite not yet flagged is taken for new text
  (`ContinuationText.StopMissesRewriteUnderPrefix`, with the exact condition for every answer in
  `StopAgreesUnderPrefixIff`).
- With workspace tools on, a cut-off answer is split after its last sentence and the rest is appended
  to the chunk list without looking at the stop flag. A step is then in the list twice exactly when a
  stop took its text while it streamed and it was decided with such a rest afterwards
  (`StopRace.CommittedTwiceIff`, with a run for every text in `TailCommittedAgain`). The answer is not
  affected: what a stop or the worker saves is the list as it was taken or read before
  (`StopRace.SavedWasRead`), and has each step at most once in every interleaving
  (`StopRace.SavedHasEachStepOnce`).
- The held-back rest is later taken out of the list and committed again. Its text survives exactly
  when the unlocked stop flag, tested twice, is not set in between, no notice replaces it and no search
  trace is put in front of it (`StopRace.ReleaseKeepsTextIff`). A notice in place of an unconfirmed write
  claim is what the hold is for (`ReleaseMayReplace`); a trace comes in when the answer has no sentence
  end (`ReleaseMayAddTrace`); a flag in between loses the rest (`ReleaseMayDrop`).
- A decided step is committed exactly as far as its confirmations come before the stop flag or a
  failure, and is not salvaged any more; what is missing is dropped (`StopRace.BodyCommittedIff`,
  `DecidedIsNotSalvaged`, with a run in `BodyMayBeDropped`).
- Event callbacks run outside the log's lock, so two publishing threads can hand their events over in
  the wrong order (`JobLog.CallbacksMayOvertake`). With one publishing thread they arrive in order
  (`JobLog.OnePublisherKeepsOrder`), which the cross-worker replay takes for granted. Where they do not,
  a listening reader loses exactly the events overtaken by a later one (`Replay.ArrivalYieldedIff`,
  `OvertakenEventIsLost`).
- A stopped run may end with the safety net's error instead of the stop's own event, exactly when the
  worker closes the job before any other terminal event (`JobLog.NetDecidesIff`, `StopMayEndAsError`).
- A remote reader that returns has yielded everything exactly when it got past its first activity
  check or had nothing to read (`Replay.ReturnedIsCompleteIff`, with a run in `EarlyReaderMayMiss`).
- A failed start undoes everything, with five exceptions that `StartJob.Service.Start` states exactly:
  an acquire or reserve call that failed after its effect leaves its key; a pending stop request of the
  room is erased once the lock was taken, even if a job of this process is still running; a cancel
  listener that does not start leaves a job that is entered everywhere, never runs and blocks its room
  (`StartJob.Service.StartAgain`); a renewal thread that does not start leaves a running job without
  lock or entry, so that a second one can run beside it (`LockProtocol.UndoneStartRunsTwo`).
- Where starts and stops of one room interleave, undoing a failed start can take a newer job out of the
  room: exactly when the newer one is the entry by then, which needs a stop of the failed job before
  its launch fails (`StartRace.UndoDropsIff`, `StaleUndoDropsRunningJob`).
- A limit and window admit at most 2 · limit − 1 calls in any stretch of one window length, one better
  than the usual 2 · limit. Every window longer than a second reaches the bound; a window of one
  second admits only its limit (`RateLimiter.FewerThanTwoLimits`, `BoundIsReached`, `OneSecondWindow`).
- A history that fits its budget can still be cut, because the messages before the newest get even
  shares; `Context.SelectRecent` states exactly when nothing is cut.

## Model

| member | source | states |
|---|---|---|
| ContinuationText.StripContinuationOverlap | services/chat_answer_continuation.py:98-109 | the loop removes the longest shared boundary of at most 2048 characters |
| ContinuationText.LongestOverlap | services/chat_answer_continuation.py:98-109 | the overlap is a common boundary and no longer one inside the window exists |
| ContinuationText.StrippedJoinsSeamlessly | services/chat_answer_continuation.py:98-109 | the joined text is the answer with its end replaced by the continuation: the shared part appears once, nothing is lost |
| ContinuationText.StrippedExtends | services/chat_answer_continuation.py:98-109 | once 2048 characters arrived, later text passes through unchanged |
| ContinuationText.RestartDecidedByPrefix | services/chat_answer_continuation.py:114-126 | the first 160 characters decide: text after them never changes the answer of the rewrite test |
| ContinuationText.RestartPersists | services/chat_answer_continuation.py:114-126 | a rewrite once seen stays one, whatever follows |
| ContinuationText.RestartMeaning | services/chat_answer_continuation.py:114-126 | a continuation is taken for a rewrite if and only if both texts have 160 characters and agree at each of the first 160 positions |
| ContinuationText.RepeatedOpeningRestarts | services/chat_answer_continuation.py:114-126 | every continuation that repeats the first 160 characters of an answer, whatever follows, is a rewrite |
| ContinuationText.OtherOpeningIsAdded | services/chat_answer_continuation.py:98-126 | a continuation that differs somewhere in its first 160 characters adds all of its text but the longest overlap |
| ContinuationText.RepeatedOpeningIsSpliced | services/chat_answer_continuation.py:114-145 | a continuation that repeats the opening adds only what follows the last occurrence of the longest tail found in it, or nothing |
| ContinuationText.SpliceRestartedAnswer | services/chat_answer_continuation.py:129-145 | the loop over the four anchor lengths computes the splice |
| ContinuationText.SpliceFromMeaning | services/chat_answer_continuation.py:129-145 | the splice keeps what follows the last occurrence of the longest tail found in the rewrite, and fails if and only if no tail is found |
| ContinuationText.AnchorMeaning | services/chat_answer_continuation.py:129-145 | one anchor length succeeds if and only if that tail occurs in the rewrite, and yields the text after its last occurrence |
| ContinuationText.StopAgreesWithFlush | services/chat_generation_job_base.py:533-569 | for the same existing text a stop takes exactly what the flush would publish, flag set or not |
| ContinuationText.SplicePointMeaning | services/chat_answer_continuation.py:129-145 | the part a rewrite adds starts where its longest occurring anchor last ends, or at the end if none occurs |
| ContinuationText.OverlapUnderPrefixIff | services/chat_answer_continuation.py:98-109 | a prefix leaves the overlap alone if and only if the longest overlap does not reach into it |
| ContinuationText.SplicePointUnderPrefixIff | services/chat_answer_continuation.py:129-145 | a prefix leaves the splice alone if and only if each anchor reaching into it ends where the answer alone is spliced |
| ContinuationText.SpliceMeetsOverlapIff | services/chat_answer_continuation.py:98-145 | strip and splice cut alike if and only if all that precedes the splice point is itself an overlap within the window |
| ContinuationText.StopAgreesUnderPrefixIff | services/chat_generation_job_base.py:533-569 | behind any prefix, for every answer length, the exact condition on overlap and anchor positions under which a stop takes what the flush would publish |
| ContinuationText.StopMissesRewriteUnderPrefix | services/chat_generation_job_base.py:533-569 | behind a differing prefix an unflagged rewrite is salvaged whole where the flush publishes nothing |
| ContinuationText.StopMissesRewriteExample | services/chat_generation_job_base.py:533-569 | a concrete answer and buffer for which stop and flush differ |
| ContinuationText.AnchorsEndingElsewhere | services/chat_answer_continuation.py:129-145 | a rewrite without the answer's last character cannot be spliced |
| AnswerRecovery.TextOnlyExtends | services/chat_answer_continuation.py:283-402 | published text is only ever extended, over any number of passes |
| AnswerRecovery.ContributionExtends | services/chat_answer_continuation.py:334-362 | after the opening was flushed, the batch result grows by exactly each later chunk |
| AnswerRecovery.AnswerStream.PublishText | services/chat_answer_continuation.py:220-224 | text is appended, empty text not at all |
| AnswerRecovery.AnswerStream.FlushPass | services/chat_answer_continuation.py:248-281 | after a flush the published text is existing text plus the batch result of what was received |
| AnswerRecovery.AnswerStream.Deliver | services/chat_answer_continuation.py:334-362 | every chunk, however split, keeps published and buffered text in step with the batch rule |
| AnswerRecovery.AnswerStream.StreamPass | services/chat_answer_continuation.py:327-362 | a pass accepts exactly the chunks before the first stop |
| AnswerRecovery.AnswerStream.RunPass | services/chat_answer_continuation.py:327-402 | what a stop would save equals the batch result of the pass; after the flush it is published, and growth is reported correctly |
| AnswerRecovery.AnswerStream.Recover | services/chat_answer_continuation.py:178-402 | at most max + 1 passes; the text is the batch specification of the passes; every continuation but the last grew; without a stop the result is free of errors if and only if the last pass finished and, as a continuation, grew; an error is raised rather than returned if and only if it is unexpected or there is no text |
| AnswerRecovery.AnswerStream.SalvageAgrees | services/chat_generation_job_base.py:533-569 | between deliveries published text plus salvage is the batch specification of what was received |
| StopRace.RunKeeps | services/chat_generation_job_base.py:434-515 | the invariant of stop and worker holds in every interleaving |
| StopRace.CommittedTwiceIff | services/chat_generation_agent_loop.py:648-658 | a step is in the chunk list twice if and only if a stop took its text while it streamed or after it failed, it was then decided with an unguarded rest, and the rest was appended |
| StopRace.TailCommittedAgain | services/chat_generation_agent_loop.py:648-658 | for every text and cut, a run whose list holds the text and then its rest again, while the stop saves the text alone |
| StopRace.CommittedOnce | services/chat_generation_answer_stream.py:242-252 | where no answer is split, no step is committed both by salvage and by confirmation |
| StopRace.OnlyTailsFollowSalvage | services/chat_generation_job_base.py:434-515 | a stop salvages at most once and only held-back rests are appended after it |
| StopRace.ConfirmationIsPrefix | services/chat_generation_answer_stream.py:217-252 | while confirming, exactly the first chunks of the step's body are committed, in order |
| StopRace.PersistedAtMostOnce | services/chat_generation_job_base.py:302-318 | the persistence callback runs at most once |
| StopRace.SavedHasEachStepOnce | services/chat_generation_job_base.py:454-508 | whichever side saves, the saved answer has no step both as salvaged and as committed, in every interleaving of a stop with a worker that ends or fails its turn |
| StopRace.SavedWasRead | services/chat_generation_job_base.py:302-318 | in every interleaving a saved answer was saved by one persist, and is the list the stop's take left or the list at the worker's latest read |
| StopRace.StopListWasTaken | services/chat_generation_job_base.py:454-470 | the list a stop saves is the one its take left |
| StopRace.WorkerListWasRead | services/chat_generation_finalization.py:425-430 | the list the worker saves is the one at its latest read |
| StopRace.WorkerSaves | services/chat_generation_finalization.py:335-340 | a worker that is the first to save has saved exactly the list it read, whatever happens in between and later |
| StopRace.StopSaves | services/chat_generation_job_base.py:454-508 | a stop that is the first to save has saved the list and what it salvaged, or the notice alone |
| StopRace.SavedStays | services/chat_generation_job_base.py:302-318 | what was saved stays saved |
| StopRace.AnswerIsCommitted | services/chat_generation_answer_stream.py:217-252 | while nobody stops and nothing fails, the list and what is still to be committed are the texts of all steps decided as answers, in order |
| StopRace.UnstoppedAnswerIsSaved | services/chat_generation_finalization.py:335-340 | with no stop and no failure the saved text is exactly that of every step decided as an answer, in order |
| StopRace.PlainAnswerIsSaved | services/chat_generation_finalization.py:335-340 | for every body, the run that decides and confirms it, ends the turn and saves has saved the body chunk by chunk |
| StopRace.FailedTurnIsSaved | services/chat_generation_finalization.py:509-540 | a turn that fails while streaming saves the list and what its buffer held |
| StopRace.DiscardedStepIsNotSaved | services/chat_generation_job_base.py:454-470 | a step that ended in tool calls leaves nothing for a stop to take |
| StopRace.RunReadsOnce | services/chat_generation_finalization.py:509-540 | the list as a stop takes it and as the worker reads it to finish or rescue a turn has each step at most once |
| StopRace.BodyCommittedIff | services/chat_generation_answer_stream.py:232-252 | a decided body is committed exactly as far as confirmations come before the stop flag or a failure, and whole if and only if all of them do |
| StopRace.DecidedIsNotSalvaged | services/chat_generation_job_base.py:434-515 | a step decided before the take is never salvaged |
| StopRace.BodyMayBeDropped | services/chat_generation_agent_loop.py:553-564 | an interleaving in which a decided body is committed by nobody |
| StopRace.ReleaseKeepsTextIff | services/chat_generation_answer_stream.py:416-426 | releasing the held part keeps the list's text if and only if there was none, or the stop flag is not set between its two tests and neither a notice nor a search trace changes what is committed |
| StopRace.ReleasedText | services/chat_generation_answer_stream.py:217-252 | the list's text after a release: the front, and the part, its notice or its trace unless the flag came in between |
| StopRace.ReleaseMayReplace | services/chat_generation_answer_stream.py:222-227 | a run without any stop in which a notice replaces the held part |
| StopRace.ReleaseMayAddTrace | services/chat_generation_answer_stream.py:231-240 | a run without any stop in which the held part comes back behind the search trace |
| StopRace.ReleaseMayDrop | services/chat_generation_answer_stream.py:421-426 | a run in which the held part is lost |
| StopRace.ListIsAppended | services/chat_generation_answer_stream.py:242-252 | the chunk list is everything appended unless a held part was taken out or a stop replaced it |
| JobLog.GenerationJob.Append | services/chat_generation_job_base.py:676-718 | an open log gains one event with the next id and the published body; a closed one nothing; the finish callback is owed exactly on the terminal event, once |
| JobLog.GenerationJob.NextEvent | services/chat_generation_job_base.py:625-672 | one turn of the reader loop skips to the first event after its cursor, yields it, ends or waits |
| JobLog.RunKeeps | services/chat_generation_job_base.py:625-718 | log, callback and reader invariants hold in every interleaving |
| JobLog.LogIsAlwaysWellFormed | services/chat_generation_job_base.py:676-718 | ids are 1..n and the log is done if and only if its last event is terminal |
| JobLog.LogHoldsWhatWasPublished | services/chat_generation_job_base.py:676-718 | in every interleaving the log is what was published, in order, numbered from 1 and up to the first terminal event |
| JobLog.NothingFollowsTerminal | services/chat_generation_job_base.py:676-702 | a finished log never changes |
| JobLog.ClosedRunHasOneTerminal | services/chat_generation_job_base.py:676-718 | after a terminal publish of any thread the log has exactly one terminal event, the last one, whatever happens later |
| JobLog.CallbacksRunOnceInOrder | services/chat_generation_job_base.py:696-718 | each callback runs at most once, and the finish callback only after the terminal event's callback |
| JobLog.FinishCallbackRuns | services/chat_generation_job_base.py:696-718 | once the terminal event is in the log, running its callbacks has run the finish callback |
| JobLog.LocalReplayIsSuffix | services/chat_generation_job_base.py:625-672 | a reader yields a prefix of the events after its cursor, and all of them when it ends |
| JobLog.LocalReplayIsPublished | services/chat_generation_job_base.py:625-672 | the i-th event a reader yields is the one published i places behind its cursor |
| JobLog.ReaderEnds | services/chat_generation_job_base.py:625-672 | a reader of a finished job ends after at most one turn of its loop more than there are events |
| JobLog.ReconnectReproduces | services/chat_generation_job_base.py:625-672 | reading up to any id and reconnecting there gives the same sequence |
| JobLog.CallbacksMayOvertake | services/chat_generation_job_base.py:676-702 | an interleaving in which the second event's callback runs first |
| JobLog.OnePublisherKeepsOrder | services/chat_generation_job_base.py:676-702 | if every event is published after all earlier callbacks ran, the callbacks run as 1, 2, ..., k with at most the newest to come |
| JobLog.EveryRunIsClosed | services/chat_generation.py:111-176 | from every exit of a worker run and under any interference, the log of an ended run has exactly one terminal event, the last |
| JobLog.NetDecidesIff | services/chat_generation.py:164-176 | the safety net's error is the terminal event if and only if no terminal event was there before it |
| JobLog.StopMayEndAsError | services/chat_generation.py:111-176 | a stopped run whose terminal event is the safety net's |
| Events.EventsAfterIsSuffix | services/chat_generation_coordinator.py:359-387 | in a numbered log the events after a cursor are a suffix |
| Events.ReadEvents | services/chat_generation_coordinator.py:359-387 | reading keeps exactly the events after the cursor, in order |
| Replay.BatchRead | services/chat_generation_coordinator.py:667-750 | a batch read yields everything up to the end of the log and sees the terminal event if it is there |
| Replay.MessageIsNext | services/chat_generation_coordinator.py:667-750 | a queued notification that is new is exactly the next event |
| Replay.RunKeeps | services/chat_generation_coordinator.py:332-387 | the invariant of log, lock, queue and reader holds in every interleaving |
| Replay.ReplayIsContiguous | services/chat_generation_coordinator.py:667-750 | yielded ids run without gap or repetition from the cursor, and every event is a stored one |
| Replay.LogHoldsWhatWasPublished | services/chat_generation_coordinator.py:332-357 | in every interleaving the stored list is what was there and what was published, in order, up to the first terminal event |
| Replay.ReplayIsPublished | services/chat_generation_coordinator.py:667-750 | the i-th event a reader yields is the one published i places behind its cursor |
| Replay.ReplayIsComplete | services/chat_generation_coordinator.py:667-750 | a reader that subscribed and returned yielded the whole rest of a terminated log, with the terminal event unless its cursor lay behind it |
| Replay.ReadCatchesUp | services/chat_generation_coordinator.py:667-750 | each read of the stored list brings the reader up to all that is stored by then |
| Replay.ReaderReturns | services/chat_generation_coordinator.py:667-750 | once the terminal event is stored and the generation is no longer running, any reader returns within four actions |
| Replay.ReconnectContinues | services/chat_generation_coordinator.py:667-750 | two readers joined at the last yielded id make one unbroken run |
| Replay.ReturnedIsCompleteIff | services/chat_generation_coordinator.py:667-750 | a returned reader leaves a terminated log, and has yielded all after its cursor if and only if it got past its first check or had nothing to read |
| Replay.EarlyReaderMayMiss | services/chat_generation_coordinator.py:667-750 | a reader leaving at its first check can miss a whole log |
| Replay.ArrivalYieldedIff | services/chat_generation_coordinator.py:712-728 | a notification is yielded if and only if it lies after the cursor and no event with as high an id arrived before it |
| Replay.OvertakenEventIsLost | services/chat_generation_coordinator.py:712-728 | of two events arriving in the wrong order the first is never yielded |
| ActiveLocks.OnlyOwnEntryChanges | services/chat_generation_coordinator.py:441-503 | release and renewal leave every entry with another key or token as it was |
| ActiveLocks.LockTable.TryAcquire | services/chat_generation_coordinator.py:405-437 | acquisition succeeds if and only if no live lock exists |
| ActiveLocks.LockTable.Release | services/chat_generation_coordinator.py:441-467 | the caller's own lock is gone, a successor's stays |
| ActiveLocks.LockTable.Refresh | services/chat_generation_coordinator.py:471-503 | renewal succeeds if and only if the caller's own lock is alive |
| LockProtocol.RunKeeps | services/chat_generation_coordinator.py:405-526 | the lock invariant holds over all runs of many workers |
| LockProtocol.AtMostOneRunningJob | services/chat_generation.py:598-612 | two running jobs of one key are the same, unless one lost its lock to expiry, to force or to the undoing of its start |
| LockProtocol.RunningJobBlocksStart | services/chat_generation.py:598-612 | while a running job keeps its lock, no start on its key has an effect |
| LockProtocol.RenewalLasts | services/chat_generation_coordinator.py:471-503 | a renewed lock is held if and only if less than the TTL has passed, and refuses other starts until then |
| LockProtocol.ReleasedKeyStarts | services/chat_generation_coordinator.py:441-467 | after its holder finished and released, a key takes a fresh job at once |
| LockProtocol.ForcedKeyStarts | services/chat_generation_coordinator.py:519-526 | a forced release frees the key for a fresh job |
| LockProtocol.GoneStaysGone | services/chat_generation_coordinator.py:405-526 | a lock that is gone never comes back to its owner, running or finished |
| LockProtocol.LateOwnerIsHarmless | services/chat_generation_coordinator.py:441-503 | an owner whose lock is gone, running or finished, can at no later moment remove or extend any lock |
| LockProtocol.LossHasCause | services/chat_generation_coordinator.py:405-526 | a running job loses its lock only by force on its key, by the clock passing its expiry, or by the undoing of its own start |
| LockProtocol.UndoneStartRunsTwo | services/chat_generation_job_base.py:386-401 | a start undone after its job was submitted lets a second job of the key run beside it |
| LockRenewal.ExpiryAhead | services/chat_generation_job_base.py:407-430 | with bounded delay and no two misses in a row the expiry stays ahead and the lock never lapses |
| LockRenewal.DoubleMissExpires | services/chat_generation_job_base.py:407-430 | two failed renewals in a row let a punctual lock expire |
| LockRenewal.PunctualLockSurvivesIff | services/chat_generation.py:222-230 | a punctual lock never expires if and only if no two renewals before the last fail in a row |
| LockRenewal.LastAttemptIrrelevant | services/chat_generation_job_base.py:407-430 | the outcome of the last attempt does not matter for the time before it |
| LockRenewal.SingleMissSafeIff | services/chat_generation.py:57-61 | single misses are survivable if and only if the lifetime is at least 3 seconds |
| StartJob.Coordinator.TryAcquire | services/chat_generation_coordinator.py:405-437 | an error counts as not acquired even if Redis stored the token |
| StartJob.Coordinator.Reserve | services/chat_generation_coordinator.py:172-188 | a reservation is claimed, conflicting or broken, and stored unless the call failed before its effect |
| StartJob.Coordinator.StoreLatest | services/chat_generation_coordinator.py:202-218 | the latest entry is stored unless the call failed before its effect |
| StartJob.Coordinator.RestoreLatest | services/chat_generation_coordinator.py:221-256 | the latest entry goes back only if it still names the failed generation |
| StartJob.Coordinator.ClaimGeneration | services/chat_generation.py:621-649 | a claim sets reservation and latest entry together; a failed one restores both, save a reservation that failed after its effect |
| StartJob.Service.CleanupExpired | services/chat_generation.py:386-408 | exactly the finished jobs past retention leave both tables |
| StartJob.Service.Install | services/chat_generation.py:685-710 | a launched job is in both tables and in the pool; one that is not submitted leaves both as they were; one whose renewal thread fails runs without an entry; one without a listener is entered and never runs |
| StartJob.Service.StartLocked | services/chat_generation.py:608-710 | each outcome under the lock follows exactly from what was found before the call and which call fails; an undone start changes nothing but a reservation that failed after its effect |
| StartJob.LockedRefusalMeaning | services/chat_generation.py:608-710 | for each refusal and for success, the exact condition on what was found and which call failed |
| StartJob.Service.Start | services/chat_generation.py:591-710 | a start succeeds if and only if the store is available, the id valid, the lock free and acquired, no unfinished job in the room, the id neither kept nor reserved, and no fault strikes; every refusal has its exact condition; all or nothing over local tables, pool, lock, reservation, latest entry and stop requests, with the five exceptions stated exactly |
| StartJob.Service.StartAgain | services/chat_generation.py:688-690 | after a start whose listener failed, every later start of the room in this process is refused and nothing runs |
| StartRace.CleanRunKeeps | services/chat_generation.py:608-686 | until an undo is stale, every unfinished job of the room is its entry |
| StartRace.UndoDropsIff | services/chat_generation.py:692-703 | an undo leaves an unfinished job without entry if and only if that job is the room's entry by then; the failed one was stopped before |
| StartRace.StaleUndoDropsRunningJob | services/chat_generation.py:692-703 | a run in which a running job loses its entry |
| RetryLoop.RetryHonoursProvider | services/chat_generation_llm_stream.py:60-80 | an affordable retry waits as long as asked, at most 8 seconds; where nothing was asked, 1 second first and then twice as long each time up to 8 |
| RetryLoop.TrimTailText | services/chat_generation_llm_stream.py:83-94 | trimming removes exactly that many characters from the end, or all |
| RetryLoop.StreamReader.ReadAttempt | services/chat_generation_llm_stream.py:97-336 | one attempt buffers its guarded chunks, or passes them on as they come |
| RetryLoop.StreamReader.Read | services/chat_generation_llm_stream.py:97-336 | at most max + 3 provider calls; an attempt is retried exactly while nothing ends the read: a transient failure ends it if and only if text is out, the retries are spent, a stop was seen or the wait is too long, a rejection if and only if there are no tools, text is out or a stop was seen; tools stay through the first rejection and no further; with discard the consumer gets nothing or exactly one attempt's guarded chunks; without it no attempt is retried after emitting |
| AgentTools.AvailableAgentTools | services/chat_generation_tools.py:446-486 | a tool is available if and only if it is configured and its own budget and the evidence allow it |
| AgentTools.OfferedIff | services/chat_generation_tools.py:424-486 | a configured tool is offered if and only if two decisions are left, nothing was degraded, no card waits, its counter is below its limit, 512 characters are left for a read, and a reader has or can get something to read |
| AgentTools.OfferedShrinks | services/chat_generation_tools.py:424-486 | as counters and flags grow, no tool is offered that was not offered before |
| ToolDispatch.CallKeeps | services/chat_generation_tools.py:318-418 | any call, known, withdrawn or unknown, keeps every counter within its limit |
| ToolDispatch.CallChargesOnce | services/chat_generation_tools.py:533-558 | a call costs one unit of one budget, unless it is a write that proposed nothing or an unknown call with both budgets spent |
| ToolDispatch.CallGains | services/chat_generation_tools.py:318-418 | a call adds exactly the evidence its search, lookup or workspace read stored, and web records only from the web |
| ToolDispatch.DispatchKeeps | services/chat_generation_tools.py:318-418 | any list of calls keeps the limits and only advances the turn; if no error escapes, an approval is pending afterwards if and only if one was or a card waits |
| ToolDispatch.PendingApprovalEndsTools | services/chat_generation_tools.py:413-443 | after a card starts to wait no tool is offered |
| ToolDispatch.Dispatcher.RecordUnsupported | services/chat_generation_tools.py:533-558 | an unsupported call spends a search, else a read, and gets one result |
| ToolDispatch.Dispatcher.BeginLookup | services/chat_generation_tools.py:91-159 | a lookup refused for its budget, its missing search or its query is answered once; an admitted one is charged and not yet answered |
| ToolDispatch.Dispatcher.RunLookup | services/chat_generation_tools.py:165-273 | refused, raising, failing and answering lookups each leave exactly one result, of the right status |
| ToolDispatch.Dispatcher.ExecuteWebSearch | services/chat_generation_web_search.py:383-446 | an executed search leaves one result, or raises at any stage and leaves none, with evidence stored only from its stage on |
| ToolDispatch.Dispatcher.RunWebSearch | services/chat_generation_web_search.py:219-327 | refused, malformed, cached, found, over quota or failed, a search leaves exactly one result, of the right status |
| ToolDispatch.Dispatcher.RunRead | services/chat_generation_tools.py:490-529 | a read within budget is charged a call and its characters; in every case one result is left |
| ToolDispatch.Dispatcher.RunWorkspaceRead | services/chat_workspace_tools/runner.py:113-188 | a workspace search within budget is charged once; invalid, crashing and answering ones each leave one result |
| ToolDispatch.Dispatcher.RunWrite | services/chat_workspace_tools/runner.py:244-350 | an exhausted, unread, failing or saved proposal is charged as it should be and leaves one result |
| ToolDispatch.Dispatcher.RunCall | services/chat_generation_tools.py:340-410 | a call goes to the runner of its tool, or is unsupported, and gets exactly one result |
| ToolDispatch.Dispatcher.Dispatch | services/chat_generation_tools.py:318-418 | the fragment is one assistant message and then one matching result for each call, in order; if an error escapes from a runner, the calls before it are answered |
| AgentLoop.OutcomeKeeps | services/chat_generation_agent_loop.py:316-441 | whatever a decision leads to, limits hold and the turn only advances |
| AgentLoop.LastTurnHasNoTools | services/chat_generation_tools.py:440-442 | the last permitted decision gets no tools |
| AgentLoop.ActiveIff | services/chat_generation_agent_loop.py:343-356 | a decision is given exactly the offered tools, and after an empty answer only in a workspace without a proposal |
| AgentLoop.TurnRun.FinishAnswer | services/chat_generation_agent_loop.py:544-677 | a decision without calls ends the turn if and only if neither of its recoveries applies |
| AgentLoop.TurnRun.HandleFailure | services/chat_generation_agent_loop.py:481-517 | a failed request is replayed, degraded or raised exactly when its recovery applies or none does |
| AgentLoop.TurnRun.Decide | services/chat_generation_agent_loop.py:343-441 | each decision is counted, given the active tools, and ends in the outcome its reply calls for; dispatched calls make a well-formed exchange, an escaping error breaks the turn off |
| AgentLoop.TurnRun.Run | services/chat_generation_agent_loop.py:316-441 | at most max decisions, the last permitted one tool-free, tools only shrink, each recovery at most once, counters within limits; the loop runs out only when a tool-free replay took the reserved answer; an empty answer needs its retry spent, earlier text or a stop |
| Tokens.EstimateSubadditive | services/chat_context.py:97-111 | joining texts never costs more than the parts, nor less than either |
| Tokens.EstimateIsLeast | services/chat_context.py:97-111 | the estimate is the least number of tokens, at least one, that covers two thirds for each position in the CJK code point ranges and a quarter for each other |
| Tokens.OneScriptCosts | services/chat_context.py:97-111 | n CJK characters cost 2n/3 and n others n/4, rounded up |
| Tokens.SliceCostsLess | services/chat_context.py:97-111 | no slice costs more than its text |
| Tokens.ShrinkToBudget | services/chat_context.py:146-155 | the loop ends with a fitting, non-empty prefix or suffix, and leaves a fitting text alone |
| Tokens.TrimText | services/chat_context.py:160-181 | the result fits; a fitting text is whole, a longer one an opening with an ellipsis, at one token a bare opening |
| Tokens.TrimUserText | services/chat_context.py:184-219 | the result fits and is an opening, a marker and the end of the text, the end with seven tenths of the budget and the opening with the rest |
| Tokens.TrimLatest | services/chat_context.py:247-279 | the result fits and is the text, an opening, an end behind a marker, or reference and request; a request behind reference material is kept whole whenever it fits |
| Context.SelectArchived | services/chat_context.py:284-313 | everything before the longest admissible recent window is archived |
| Context.NormalizeHistory | services/chat_context.py:389-411 | exactly the non-empty messages are kept, in order, normalized |
| Context.TakeNewest | services/chat_context.py:436-443 | the newest message opens the selection within the budget, with its images, in one of the shapes of its trimming and with a fitting request whole |
| Context.TakeGuaranteed | services/chat_context.py:445-460 | the guaranteed recent messages are covered while budget remains, both of them whenever two tokens are left and the first has no images, and whole so far if and only if each fits its share |
| Context.AllocationShares | services/chat_context.py:445-455 | of three guaranteed messages the one before the newest may use half of what is left, rounded up, and any older one all of it |
| Context.TakeRest | services/chat_context.py:466-476 | older messages are covered while budget and places remain; the selection is whole if and only if all fit and there are few enough |
| Context.SelectFromHistory | services/chat_context.py:389-476 | a long answer before the newest message does not push out the message it answers: the three newest texts are selected whenever two tokens are left and the middle one has no images |
| Context.SelectRecent | services/chat_context.py:389-476 | an order-preserving selection ending in the newest, every older text an opening of its message and the newest of a trimmed shape with its request kept, within message limit and budget (or the newest alone), complete whenever room is left, and whole if and only if each message fits its allocation |
| Context.InsertionPoint | services/chat_prompt.py:23-57 | the place is the latest user message, or the end of the leading system messages if there is none |
| Context.InsertContext | services/chat_prompt.py:45-57 | the message lands right before the latest user message and the turns keep their order |
| Context.InsertAll | services/chat_context.py:665-672 | messages inserted one after the other land as one block, in order, right before the latest user message |
| Context.TurnsKeptByInsertion | services/chat_prompt.py:45-57 | inserting a system message anywhere keeps the conversation |
| Context.AppendOptional | services/chat_context.py:597-607 | an optional text becomes nothing if there is no text or room, itself if it is within its limit and what is left, else a marked opening within both |
| Context.OptionalContext | services/chat_context.py:609-646 | each text, in order, becomes its piece under what the texts before it left, in its place; together they stay within the optional budget |
| Context.NoTextIsCrowdedOut | services/chat_context.py:597-646 | if the texts, each counted up to its own limit, fit together, every text within its limit is whole, however long the others are |
| Context.LimitsFitTogether | services/chat_context.py:556-646 | with a mandatory part of at most 4120 tokens every optional text within its limit is whole |
| Context.SystemContext | services/chat_context.py:556-662 | opening and per-turn messages are base prompt, contract and the pieces of the optional texts; history always receives exactly the reserved window, however long the texts are |
| Context.BuildContext | services/chat_context.py:556-672 | the whole context, exactly: base prompt, stable pieces and history, with the per-turn pieces, contract and runtime context right before the latest user message; a text-only context fits 26000 tokens whenever its mandatory part does; the history is the selection with its shapes, whole if and only if it fits |
| RateLimiter.InMemoryLimiter.Consume | services/auth_limits.py:297-331 | the purging table answers and changes as specified |
| RateLimiter.RedisLimiter.Consume | services/auth_limits.py:240-293 | the script answers and changes the store as specified, missing and unexpiring keys included |
| RateLimiter.StepAgrees | services/auth_limits.py:252-331 | from agreeing stores one call gets the same answer and leaves them agreeing |
| RateLimiter.StoresAnswerAlike | services/auth_limits.py:252-331 | after any calls in time order both stores give the next call the same permission, remainder and wait |
| RateLimiter.FirstCallsAdmitted | services/auth_limits.py:297-331 | inside a window a call is admitted if and only if fewer than limit calls on the key came before, with exact remainder and wait |
| RateLimiter.FirstCallsAdmittedInRun | services/auth_limits.py:297-331 | the same for a window opening anywhere in a run from an empty table |
| RateLimiter.FewerThanTwoLimits | services/auth_limits.py:297-331 | any stretch of one window length admits at most 2 · limit − 1 calls |
| RateLimiter.BoundIsReached | services/auth_limits.py:297-331 | for every limit and every window longer than a second, calls that reach the bound |
| RateLimiter.OneSecondWindow | services/auth_limits.py:297-331 | with a window of one second no instant admits more than the limit |
| RateLimiter.ConsumeRateLimit | services/auth_limits.py:335-366 | a limit of zero or less denies without counting; otherwise Redis answers and counts alone, or the local table does, both counting when a Redis call fails after its script ran |
| Evidence.FirstOccurrencesMeaning | services/chat_evidence_store.py:154-181 | deduplication keeps every id once, ordered by first appearance |
| Evidence.ValidateEvidenceIds | services/chat_evidence_store.py:154-181 | ids are accepted if and only if some are given, all are valid and few enough differ |
| Evidence.LargestTrimmableText | services/chat_evidence_store.py:184-198 | the first of the longest unprotected texts, or none if and only if there is none |
| Evidence.LastTrimmable | services/chat_evidence_store.py:215-220 | the last record with anything to drop; all later ones are bare |
| Evidence.FitEvidencePayload | services/chat_evidence_store.py:201-232 | terminates within the budget or without records; each removal is from a payload that did not fit, and is the largest text of the last record that has one, or the last record when none has; kept ids and reversed truncated ids are the originals |
| Evidence.DroppedOnlyBehindBare | services/chat_evidence_store.py:184-232 | once a record is dropped, the kept ones hold no text but under the nine identifying keys |
| Evidence.Lookup | services/chat_evidence_store.py:533-546 | known records in request order without page bodies, and the missing ids |
| Evidence.PageBodyGone | services/chat_evidence_store.py:538-543 | a web record loses its page text and image candidates and keeps every other field; other records are unchanged |
| Evidence.NoPageTextIsRetrieved | services/chat_evidence_store.py:538-543 | no retrieved web record holds the text of its page |
| Evidence.SelectSplits | services/chat_evidence_store.py:533-546 | each requested id is either known or missing |
| Evidence.RetrieveEvidence | services/chat_evidence_store.py:533-561 | kept, truncated and missing ids account for the request, the status says which case it is, every kept record is the stored one short of named texts |
| Evidence.ExecuteGetEvidence | services/chat_evidence_store.py:501-561 | a request succeeds if and only if its ids are valid, and is then answered for its distinct ids |

## Left out

- HTTP routes, sign-in, passkeys, e-mail codes, CSRF, Google login and the database layer are not modelled.
- Parked sessions of several accounts (services/account_sessions.py) would only add easy members.
- Model providers, web search, page reading, citations, image selection and generated UI are arbitrary outcomes.
- The envelope, draft and leak filters are not modelled; what they pass on is arbitrary, and a stop is modelled for an envelope-free buffer.
- Where a cut-off answer is split, when and by what text an unconfirmed write claim is replaced, and the search trace are arbitrary; the normalization of the text that is read for saving is not modelled; the text salvaged when the loop runs out of decisions is not modelled.
- Telemetry, logging, trace steps and reason texts are not modelled.
- Heartbeats of event readers are not modelled; they yield nothing to the client's sequence.
- Replay takes a publish, its storing and its notification as one step, in id order; expiry of the stored list and of the latest entry is not modelled.
- `StartJob` takes a start as one atomic step at one moment whose rollback calls succeed; `StartRace` interleaves starts and stops of one room over its entry only.
- A run decides whether a side persists: that an empty answer is not saved at all is not modelled.
- Executor admission and shutdown are not modelled.
- Normalization of tool-call ids and JSON arguments is not modelled; a call arrives with its id, its name and what each kind of runner would meet. An error that escapes from a runner is placed directly before or after its result.
- Publishing is taken not to raise in the closing of a worker run.
- Read characters are counted but not bounded by a lemma, because one payload may exceed the limit it was given.
- Text normalization and the split of reference material are arbitrary functions.
- Times of the rate limiter are whole seconds, and a Redis key is gone at its expiry instant; the hash and trimming of identifiers are not modelled. No joint bound is stated when calls switch between the stores.
- JSON length and stripping of whitespace are arbitrary functions in evidence retrieval; the message added after shrinking is not counted.
- Cut lengths and character budgets follow the exact share of the text with any rounding, because the source computes them in floating point and the results do not depend on it.
- AgentTools.AvailableAgentTools: a name stands for one tool; with two configured tools of one name the first available one runs.
