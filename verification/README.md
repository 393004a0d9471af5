# A verified model of NanoClaw's host

NanoClaw's host moves messages between chat channels and per-session agent containers. This project models the parts of
it where several timers, promise chains or processes touch the same state, and a few algorithms with exact
specifications, and proves what the code and its comments promise about them. `dafny verify dfyconfig.toml` checks all of
it. Paths and lines below are those of the repository.

## How it is modelled

Asynchronous code is modelled by the stretches that run without interruption. A *step* is the code between two awaits, one
event of a child process, one file operation or one statement of the database. The steps of a component are functions on a
value that holds its whole state; a *run* is any sequence of steps, so every interleaving of timers, callbacks and crashes
is some run, and a theorem about all runs needs no scheduler. The classes carry the source's own fields and update them in
place; each method is proved to be exactly the corresponding step or sequence of steps. Counters kept only for statements
about runs (how often a message was sent, which executions were lost) are marked as history.

Clocks, random ids, query results whose order the database does not fix, the outcomes of network calls and of compression
are parameters. A run may give them any value that its stated assumptions allow.

| file | models |
|---|---|
| `Delivery.dfy` | the outbound drain, its guard and its attempt counters (`src/delivery.ts`) |
| `Containers.dfy` | wake, spawn, exit, kill and restart of containers (`src/container-runner.ts`, `src/container-restart.ts`) |
| `Retry.dfy`, `HostSweep.dfy` | retry with backoff, stuck detection, one sweep (`src/host-sweep.ts`, `src/db/session-db.ts`) |
| `Router.dfy` | session find-or-create and the fan-out (`src/router.ts`, `src/session-manager.ts`, `src/db/sessions.ts`) |
| `HandoffQueue.dfy` | the crash-tolerant handoff queue (`scripts/dc-codex-bridge.ts`) |
| `TimedMap.dfy`, `Lease.dfy`, `TrimmedList.dfy`, `StateSqlite.dfy` | `SqliteStateAdapter` and the objects it implements (`src/state-sqlite.ts`) |
| `ShiftRegister.dfy`, `Crc32.dfy`, `Png.dfy` | the table-driven CRC-32 and the PNG writer (`setup/lib/teams-manifest.ts`) |
| `StatusStream.dfy` | the streaming status parser and its printer (`setup/lib/runner.ts`, `setup/status.ts`) |
| `WrapLine.dfy`, `ShellQuote.dfy` | text wrapping and shell quoting (`setup/lib/theme.ts`, `src/container-runner.ts`) |
| `Prelude.dfy` | optional values, joining and splitting text, what a filter keeps |

## What the proofs found

Some promises hold only under a condition. Each such condition is proved to be exact.

- Delivery attempts are counted by message id alone. At most three attempts for each message hold in all runs if and only
  if no two sessions can write the same id; otherwise a message can be tried four times
  (`Delivery.ThreeAttemptsExactlyForUniqueIds`).
- The close and error handlers delete the entry of their session, whichever process it names. An event keeps one container
  per session if and only if the session has no entry, or has that very process, ended
  (`Containers.EventIsSafeExactlyForOwnEntry`).
- `datetime('now')` keeps whole seconds. Over all continuations of a run the backoff holds to the millisecond, and the 155
  seconds before a message is given up, if and only if its first retry came at the very start of a second
  (`Retry.MillisecondBoundsExactly`); always, it is less than one second short.
- Claims, too, are stamped in whole seconds. As long as no timeout above a minute is in force, in every run the silence
  after a claim is found by every sweep more than a minute later if and only if no heartbeat before the claim fell within
  its second (`HostSweep.SilenceIsFoundExactly`); and containers that answer each claim within a minute of the claim itself
  are never killed for it, in all runs with claims at given offsets into their seconds, if and only if the only offset is
  0 (`HostSweep.AnsweredIsSparedExactly`).
- Neither a kill nor a container's start clears the declared Bash timeout in `container_state`, so a new container inherits
  it. That makes no difference to a container that declares none if and only if it is at most a minute; a longer one
  shields a silent successor (`HostSweep.LeftoverTimeoutShields`).
- A lookup takes an empty thread id for none, a new session stores it as it is, and without a messaging group, or with an
  empty one, only the agent-shared mode looks at all. Sessions are unique if and only if no request is of these two kinds
  (`Router.SessionsAreUniqueExactly`).
- A sticky wiring follows messages that were only accumulated as well as those that engaged
  (`Router.AccumulatingSubscribes`). After a mention on a named thread it follows the thread unless it is agent-shared, or
  shared on a channel without a registered adapter (`Router.NamedThreadIsFollowedExactly`).
- The ids that the router makes from a message and an agent determine both if and only if no agent id ends with a colon and
  another agent id (`Router.RoutedIdsAreDistinctExactly`).
- A handoff that stops between its execution and its record is executed again, and so is one whose record says failed. An
  id is executed exactly once for its terminal record, and once more for each of these
  (`HandoffQueue.ExecutionsAreAccounted`, `HandoffQueue.StopBeforeWriteRunsAgain`, `HandoffQueue.FailedIsExecutedAgain`).
- `extendLock` does not look at the clock. A holder can extend its lock, lapsed or not, if and only if nobody gave it up,
  cleaned it up after its expiry or took it after its expiry (`Lease.HolderCanExtendExactly`).
- An expiry of exactly 0 blocks `setIfNotExists` until its entry is overwritten, deleted or cleaned up, and exactly until
  then (`TimedMap.ZeroExpiryStaysExactly`, `TimedMap.ZeroExpiryBlocks`).
- An enqueue reads its depth after an await, and reports the depth of the queue after everything that came in between
  (`TrimmedList.EnqueueReportsLaterDepth`). With one operation in between the report is right if and only if that operation
  does not concern the queue, is an enqueue whose bound is the depth there is (or is negative, on an empty queue), or a
  dequeue from an empty queue
  (`TrimmedList.OneInBetweenExactly`); with enqueues of the same bound, if and only if there were none or the queue was
  full (`TrimmedList.OverlappingEnqueuesReport`).
- A printed status block is read back if and only if its type, keys and values have a printable form and no line of it
  looks like a marker (`StatusStream.ParseAfterPrint`).
- `wrapLine` overwrites an open row that shows nothing. It keeps a line's words at a given width if and only if the line
  fits or each of its greedy rows begins with a visible word (a last row may be a single word that is not empty); and at
  every width if and only if all words but the last are visible and the last is not empty, or there is no space
  (`WrapLine.LineIsKeptExactly`, `WrapLine.KeptAtEveryWidthExactly`).

## Model

| member | source | states |
|---|---|---|
| Delivery.DrainsAreExclusive | src/delivery.ts:162-196 | In every run: each drain holds its session's guard, no guard is held for nothing, no two drains share a session, and no row a drain still has to handle is already delivered |
| Delivery.UndeliveredIsExact | src/delivery.ts:190-196 | The filtered list is exactly the due rows that are not delivered, each as often as and in the order in which the query gave them: a strictly rising map of indices |
| Delivery.DrainKeepsTheOrder | src/delivery.ts:195-201 | In every run, while a drain goes on: what it has attempted and what it still has to attempt are together the rows that were due and undelivered when it began, in the order of the query |
| Delivery.DeliveredAtMostOnce | src/delivery.ts:201-215 | In every run with crashes, the adapter takes a row at most once plus once for each time that its taking was lost before being recorded |
| Delivery.FinalRowsStayFinal | src/delivery.ts:193-196 | In every run, a row with a final status is never attempted again and keeps its status, also over crashes |
| Delivery.ThreeAttemptsExactlyForUniqueIds | src/delivery.ts:33-36 | In all runs no message is attempted more than three times since the host started, if and only if ids are unique across sessions |
| Delivery.CountersAreOwnExactlyForUniqueIds | src/delivery.ts:226-245 | In all runs a counter equals its row's failures, at most two, and is gone once the row is final, if and only if ids are unique across sessions |
| Delivery.SharedIdIsTriedFourTimes | src/delivery.ts:226-245 | Two sessions with one id: the third failure deletes the counter of both, and a message is tried four times |
| Delivery.SharedIdMiscounts | src/delivery.ts:226-228 | Two sessions with one id: a failure of one is on the counter of the other |
| Delivery.DeliveryHost.constructor | src/delivery.ts:36-51 | The state at the start of the process |
| Delivery.DeliveryHost.Enter | src/delivery.ts:162-201 | Guard, query and filter up to the first await are the begin step, with every early return |
| Delivery.DeliveryHost.TakeMessage | src/delivery.ts:352-360 | The adapter takes the first message of the drain |
| Delivery.DeliveryHost.RecordOutcome | src/delivery.ts:202-255 | The branches after deliverMessage: status written if absent, counter raised or removed, given up at the third failure; the attempt is logged |
| Delivery.DeliveryHost.Leave | src/delivery.ts:170-172 | The guard is released |
| Delivery.DeliveryHost.Drain | src/delivery.ts:201-256 | The loop is a run of the steps and attempts each of its rows exactly once, in order |
| Delivery.DeliveryHost.DeliverSessionMessages | src/delivery.ts:162-196 | Undisturbed, it attempts exactly the due, undelivered rows in the order of the query, and leaves the guards and drains as they were; a busy session is skipped |
| Containers.OneContainerPerSession | src/container-runner.ts:103-136 | In every run with one terminal event for each process, after its spawn has settled: live processes and spawns in progress of a session are together at most one |
| Containers.StepMatches | src/container-runner.ts:61-72 | Every step keeps the maps in agreement with the processes and the calls of spawnContainer |
| Containers.EventIsSafeExactlyForOwnEntry | src/container-runner.ts:209-221 | A terminal event at any time leaves a state from which no run leads to two containers, if and only if the session has no entry or has that process, ended |
| Containers.ErrorWhileLiveIsUnsafe | src/container-runner.ts:216-221 | An error event of a running process leads to two containers |
| Containers.CloseFindsNoWake | src/container-runner.ts:189-222 | The process that closes is its session's entry, and its session is not waking |
| Containers.CallbacksShareOneSpawn | src/container-runner.ts:229-231 | Any number of callbacks of one close make one spawn, exactly when there is a callback and row and group are found |
| Containers.CallbacksAreKills | src/container-runner.ts:225-231 | In every such run, the callbacks that wait for a process are exactly the kills and restart listings with a wake that reached it, counted from the list of events; and it was told to stop once by each that reached it, with or without a wake |
| Containers.CloseRespawnsExactly | src/container-runner.ts:209-231 | In every such run, a close starts one spawn if and only if an earlier kill or restart with a wake reached the process and row and group are found; a container killed without a wake is not started again |
| Containers.FailedSpawnCanWakeAgain | src/container-runner.ts:124-136 | After a failed spawn there is no process and no entry, and once its promise is forgotten the next wake is a new spawn |
| Containers.KilledIsReplacedExactly | src/container-runner.ts:225-239 | A container that is killed, ends and closes is replaced by one spawn if the kill asked for it, and by nothing otherwise |
| Containers.RestartReachesRunning | src/container-restart.ts:22-53 | For each listing of a running session a restart tells its process to stop, and with a wake message leaves one message and one callback; without one it leaves neither, and it does nothing to the other sessions |
| Containers.RestartBringsBack | src/container-restart.ts:26-53 | Whatever happens after a restart, when the process of a listed session closes, the session has exactly one spawn in progress |
| Containers.RestartOfRunning | src/container-restart.ts:22-24 | Filtering the sessions before the loop is testing each in the loop |
| Containers.ContainerRunner.constructor | src/container-runner.ts:62-72 | Both maps start empty |
| Containers.ContainerRunner.WakeContainer | src/container-runner.ts:115-136 | A wake is nothing with a container or a wake in progress, and a new call of spawnContainer otherwise |
| Containers.ContainerRunner.FinishSpawn | src/container-runner.ts:187-221 | The new process is entered under its session, before any event of it |
| Containers.ContainerRunner.ForgetWake | src/container-runner.ts:131-133 | The settled promise is forgotten by session |
| Containers.ContainerRunner.KillContainer | src/container-runner.ts:225-239 | A kill tells the current process of the session to stop, if there is one, and registers its callback on it, if it has one |
| Containers.ContainerRunner.OnClose | src/container-runner.ts:209-214 | First the entry is deleted, then each callback wakes |
| Containers.ContainerRunner.OnError | src/container-runner.ts:216-221 | The entry of the session is deleted |
| Containers.ContainerRunner.RestartAgentGroupContainers | src/container-restart.ts:21-59 | The loop is the restart step, its result counts the sessions that ran, and without a wake message no callback and no message is left |
| Retry.ResetSchedules | src/host-sweep.ts:282-308 | A reset changes exactly its stuck rows: each fails after five tries, or has one try more and waits its own 5 * 2^tries seconds |
| Retry.ResetIsIdleExactly | src/host-sweep.ts:282-308 | A reset changes nothing if and only if none of its claims is a pending row that is due |
| Retry.SecondResetIsIdle | src/host-sweep.ts:195-201 | A second reset before the rows are due changes nothing, also with claims left over or listed twice |
| Retry.RetriesAreSpaced | src/host-sweep.ts:291-301 | In every run and for every row: at most five retries, the (k+1)-th at least 5(2^k - 1) seconds after the first on the clock of whole seconds, and less than one second sooner in milliseconds; failure only after five |
| Retry.GivenUpAfter155Seconds | src/host-sweep.ts:69-70 | A failed row was retried five times and given up at least 155 seconds after the second of its first retry, more than 154 seconds after that retry |
| Retry.QueueRowsAreReset | src/db/session-db.ts:149-167 | The rows of such a run are those of the source's reset |
| Retry.MillisecondBoundsExactly | src/db/session-db.ts:153-157 | In all continuations of a run the spacing holds to the millisecond, and so do the 155 seconds, if and only if the row's first retry came at the start of a second |
| HostSweep.DecideStuckAction | src/host-sweep.ts:82-118 | Kills for the ceiling if and only if a heartbeat is older than half an hour and any timeout that a running Bash declared; otherwise for a claim if and only if one is older than a minute and such a timeout with no later heartbeat, and names the first |
| HostSweep.DecisionOfListing | src/db/session-db.ts:198-202 | The decision does not depend on the order in which the claims are listed |
| HostSweep.ClaimsAreOpenAcks | src/db/session-db.ts:198-202 | The claims are exactly the rows that are still processing, in the order of the table |
| HostSweep.SweepKillsExactly | src/host-sweep.ts:99-115 | For every history of a container, every inheritance of claims and declared timeout, and every moment: a sweep kills if and only if its heartbeats are all past the ceiling, or a claim of its own or an orphan is past the tolerance with no heartbeat after it |
| HostSweep.LivelyContainerIsNeverKilled | src/host-sweep.ts:65-68 | With heartbeats at most half an hour old, every claim answered within a minute of its recorded second and no orphans, no sweep in the run kills |
| HostSweep.AnsweredIsSparedExactly | src/host-sweep.ts:65-68 | Answering within a minute of the claim itself is enough in all runs with claims at given offsets into their seconds, if and only if the only offset is 0, with no timeout above a minute inherited |
| HostSweep.SilentClaimIsKilled | src/host-sweep.ts:23-27 | With no timeout above a minute in force, declared or inherited, every sweep more than a minute after an open claim, with no heartbeat after its recorded second, kills |
| HostSweep.SilenceIsFoundExactly | src/host-sweep.ts:109-113 | In every run with no timeout above a minute in force, every sweep more than a minute after a claim that stays open and that no heartbeat follows kills, if and only if no earlier heartbeat fell within the claim's second |
| HostSweep.UnclaimedIsSpared | src/host-sweep.ts:91-98 | Before its first claim, and without orphans, a container is killed only for going quiet |
| HostSweep.FreshIsKilledExactlyForOrphans | src/host-sweep.ts:174-193 | A container started in this sweep is killed in it if and only if an orphan claim is past the tolerance, which is still the earlier container's |
| HostSweep.WokenIsJudgedAsFresh | src/host-sweep.ts:180-193 | That is what the sweep decides on the rows of the table and the stored state |
| HostSweep.LeftoverTimeoutShields | src/host-sweep.ts:223-226 | A timeout left by an earlier container makes no difference in any run without a declaration, if and only if it is at most a minute |
| HostSweep.LoneClaimKilledExactly | src/host-sweep.ts:107-115 | A single claim that nothing follows is killed if and only if its second is past the tolerance in force |
| HostSweep.ResetDelaysTheWake | src/host-sweep.ts:174-180 | A row that a reset changed is not due before its own backoff is over, so no sweep until then wakes for it |
| HostSweep.ResetSparesTheNextContainer | src/host-sweep.ts:311-319 | After the claims were deleted, a later container is killed only for its own claims or for going quiet, whatever timeout it inherits |
| HostSweep.EarlierBeatHidesSilence | src/host-sweep.ts:109-113 | One heartbeat and one claim, past the tolerance in force and within the ceiling: the silence is found if and only if the heartbeat came before the claim's second |
| HostSweep.ClaimKilledEarlyExactly | src/host-sweep.ts:109-112 | One silent claim, with no timeout above a minute in force: some sweep kills it when it is at most a minute old, if and only if it was not made at the start of a second |
| HostSweep.SweptSession.ResetStuckProcessingRows | src/host-sweep.ts:273-327 | The loop is the reset of the open claims at the times it reaches them: it changes exactly the pending rows with an open claim that do not wait; the open rows are deleted, and no others, if the file can be written |
| HostSweep.SweptSession.SweepSession | src/host-sweep.ts:147-201 | On the rows of the tables: exactly the reported messages are completed; a wake comes if and only if a message that is not reported is waiting and no container runs; a container that runs is killed exactly for its heartbeat, claims and timeout; and the reset comes to exactly the rows with an open claim that are pending and not waiting |
| HostSweep.DueExactly | src/db/session-db.ts:136-147 | After the sync the due count is positive if and only if some message that is not reported is pending, to be acted on and due on the clock of whole seconds |
| HostSweep.SweepOfRows | src/db/session-db.ts:169-182 | Sync and reset together complete exactly the messages reported as completed or failed, and change no others but as the reset says |
| Router.SessionsAreUniqueExactly | src/session-manager.ts:92-133 | In all runs of requests and closings no two active sessions share agent, group and thread, if and only if no request has an empty thread id per thread, or a null or empty group outside the agent-shared mode |
| Router.AskingTwiceIsOnce | src/session-manager.ts:104-128 | Asking again finds the created session, unless the request is of one of these two kinds |
| Router.ClosedIsReplaced | src/session-manager.ts:99-128 | A closed session is not found: the request that made it opens another one |
| Router.StickyFollowsMentionsExactly | src/router.ts:385-391 | In every interleaving, an unmentioned message engages a mention-driven wiring whose sessions keep the thread if and only if it is sticky and an earlier mention on its thread passed both gates |
| Router.SessionsAreSubscriptions | src/router.ts:287-330 | A session of the group and thread exists if and only if a mention there passed both gates |
| Router.SubscriptionsExactly | src/router.ts:278-330 | For every wiring, history and thread: a session exists if and only if it did before or a visit took the message and stored that thread |
| Router.AccumulatingSubscribes | src/router.ts:311-320 | With any policy, where sessions keep the thread, a sticky wiring follows if and only if an earlier message on the thread was engaged or accumulated |
| Router.NamedThreadIsFollowedExactly | src/router.ts:411-416 | After a gated mention on a named thread, a sticky wiring of one mode and adapter follows the thread if and only if it is not agent-shared, and not shared without a registered adapter |
| Router.UnregisteredNeverFollows | src/router.ts:411-416 | Without a registered adapter a shared sticky wiring never follows up on a named thread, after any history |
| Router.HistoryIsNoMatter | src/router.ts:365-396 | A wiring by pattern or mention, and a sticky one in a direct chat, is called upon by the message alone, whatever sessions there are |
| Router.JoinsExactly | src/router.ts:407-416 | Two messages of one wiring and chat go to one session if and only if the agent is shared across chats, the platform has no threads, the chat has one session for all threads (also every direct chat on a platform with threads), or they are on one thread |
| Router.SessionRouter.FindSessionForAgent | src/db/sessions.ts:36-53 | Finds an active session of the agent, group and sought thread if and only if there is one |
| Router.SessionRouter.FindSessionByAgentGroup | src/db/sessions.ts:56-60 | Finds the newest active session of the agent if and only if there is one |
| Router.SessionRouter.ResolveSession | src/session-manager.ts:92-133 | Returns an active session of the agent that matches the request, and creates one if and only if the lookup of its mode finds none or there is no group to look in |
| Router.SessionRouter.DeliverToAgent | src/router.ts:398-462 | Finds or makes the session of the message, and writes the message to it if the command gate lets it pass |
| Router.SessionRouter.RouteInbound | src/router.ts:274-342 | The loop leaves the sessions of its visits one after another; each new session is that of an agent that took the message; the counts are the numbers of agents woken and of those that only store it; the message is written once for each of them that the command gate lets it through to, in a session of that agent, chat and thread; it is recorded as dropped if and only if no agent took it; the platform is asked for follow-ups if and only if a sticky wiring was woken on a thread of a group |
| Router.OneFanOutIsDistinct | src/router.ts:522-531 | The ids of one fan-out are distinct for all agent ids |
| Router.RoutedIdsAreDistinctExactly | src/router.ts:528-531 | Routed ids determine message id and agent for all messages with an id, if and only if no agent id ends with a colon and another agent id |
| HandoffQueue.HandoffsAreConserved | scripts/dc-codex-bridge.ts:702-749 | In every run with stops between any two file operations: every id ever queued is in some directory, and none is both completed and submitted |
| HandoffQueue.NoHandoffIsLost | scripts/dc-codex-bridge.ts:702-749 | In every such run each handoff that was ever queued, by the list of events, is still queued or has a record |
| HandoffQueue.TerminalIsNeverExecuted | scripts/dc-codex-bridge.ts:773-780 | After a completed or submitted record, no continuation executes or submits the id again |
| HandoffQueue.ExecutionsAreAccounted | scripts/dc-codex-bridge.ts:811-850 | The executions of an id are exactly its terminal record, its failures, its lost outcomes and the one in progress |
| HandoffQueue.WriteSucceeds | scripts/dc-codex-bridge.ts:717-724 | The error about a record with a different status cannot happen |
| HandoffQueue.StopBeforeWriteRunsAgain | scripts/dc-codex-bridge.ts:811-814 | A stop between the execution and the write leads to a second execution |
| HandoffQueue.FailedIsExecutedAgain | scripts/dc-codex-bridge.ts:742-749 | A failed record does not prevent a second execution, and an id can end failed and completed |
| HandoffQueue.HandoffBridge.constructor | scripts/dc-codex-bridge.ts:283-285 | All directories start empty |
| HandoffQueue.HandoffBridge.ReadQueuedHandoffs | scripts/dc-codex-bridge.ts:283-298 | The listed files with their records |
| HandoffQueue.HandoffBridge.WriteRecord | scripts/dc-codex-bridge.ts:713-738 | The write of moveRecord is the write step: a record that is there is kept if it agrees and refused otherwise |
| HandoffQueue.HandoffBridge.RemoveQueued | scripts/dc-codex-bridge.ts:739-740 | The unlink step |
| HandoffQueue.HandoffBridge.ExecuteFirst | scripts/dc-codex-bridge.ts:811-850 | One execution, its record in the directory of its outcome, and the queued file gone |
| HandoffQueue.HandoffBridge.HandleFirst | scripts/dc-codex-bridge.ts:769-850 | One turn: an id with a terminal record only loses its queued file, a left handoff changes nothing, any other is executed once |
| HandoffQueue.HandoffBridge.ProcessQueue | scripts/dc-codex-bridge.ts:759-917 | The loop is a run of the steps; the counters add up; only handoffs that it chose to leave are still queued |
| TimedMap.LazyIsEager | src/state-sqlite.ts:32-68 | Over every run the table answers like a map whose entries vanish when their expiry is past |
| TimedMap.GetAnswersExactly | src/state-sqlite.ts:32-64 | Over every run a get answers with the value of the last successful write of its key with no later delete, if and only if that write had no time to live or it is not over, and with nothing otherwise |
| TimedMap.StepAgrees | src/state-sqlite.ts:176-181 | Each operation answers alike on both and keeps them in agreement |
| TimedMap.SetIfNotExistsIsExact | src/state-sqlite.ts:52-64 | It stores if and only if no live entry is there |
| TimedMap.SetIfNotExistsStoresExactly | src/state-sqlite.ts:52-64 | Over every run it stores if and only if such a get at its time would find nothing |
| TimedMap.ZeroExpiryStaysExactly | src/state-sqlite.ts:38-41 | Over every run an entry that expires at 0 stays if and only if no operation overwrites, deletes or cleans it up |
| TimedMap.ZeroExpiryBlocks | src/state-sqlite.ts:56-58 | As long as it stays it is not alive, and setIfNotExists of its key fails at every time |
| Lease.GrantsAreSeparated | src/state-sqlite.ts:87-97 | Two grants on one thread with no release of the first between them are separated by its expiry as extended |
| Lease.LeaseStands | src/state-sqlite.ts:87-113 | Until given up, a lease stands with the expiry it was last given, or that expiry is past |
| Lease.TokenStaysStale | src/state-sqlite.ts:87-117 | After a later grant the earlier token never holds the lock again |
| Lease.StaleTokenIsPowerless | src/state-sqlite.ts:99-113 | A superseded token neither releases nor extends the later holder's lock |
| Lease.HoldsExactly | src/state-sqlite.ts:87-117 | Over every run a granted token holds the lock, with its last expiry, if and only if nothing ended the lease |
| Lease.HolderCanExtendExactly | src/state-sqlite.ts:103-113 | Over every run the holder of a grant can extend it if and only if nobody gave it up, and no clean-up or other acquire came after its expiry |
| Lease.LapsedLeaseCanBeRevived | src/state-sqlite.ts:103-113 | A lapsed lease that nothing ended, and that others could have at that moment, is theirs no more once it is extended |
| TrimmedList.QueuesAreBoundedFifos | src/state-sqlite.ts:150-172 | Over every run the lists answer like first-in first-out queues that drop their oldest entries |
| TrimmedList.StepRefines | src/state-sqlite.ts:121-136 | Each operation keeps every queue in a contiguous range of indices and answers like the queue |
| TrimmedList.NextIndexIsFree | src/state-sqlite.ts:123-126 | The insert index is never taken |
| TrimmedList.EnqueueThenDepth | src/state-sqlite.ts:150-154 | An undisturbed enqueue reports min(old depth + 1, maxSize), for every sign of maxSize |
| TrimmedList.EnqueueReportsLaterDepth | src/state-sqlite.ts:152-153 | For every queue and all operations that come in before the depth is read: the report is the queue's depth after them, and right whenever none of them changes that queue |
| TrimmedList.OneInBetweenExactly | src/state-sqlite.ts:152-153 | With one operation in between, the report is right if and only if that operation leaves the depth as it is: exactly which ones do |
| TrimmedList.OverlappingEnqueuesReport | src/state-sqlite.ts:152-153 | With any number of enqueues of the same bound in between: the report, and that it is right if and only if there were none or the queue was full |
| TrimmedList.QueueReadsInOrder | src/state-sqlite.ts:138-146 | Read as a list, a queue shows its entries oldest first |
| TrimmedList.GetListIsListing | src/state-sqlite.ts:138-146 | A list shows exactly the rows that are not expired, in the order of their indices |
| StateSqlite.SqliteStateAdapter.Get | src/state-sqlite.ts:32-43 | The answer and the new tables are those of the timed map after clean-up |
| StateSqlite.SqliteStateAdapter.Set | src/state-sqlite.ts:45-50 | Replaces the entry, which expires its time to live from now, or never if that is absent or 0 |
| StateSqlite.SqliteStateAdapter.SetIfNotExists | src/state-sqlite.ts:52-64 | Stores if and only if there is no entry, or one with an expiry that is not 0 and past; the new entry expires as for set |
| StateSqlite.SqliteStateAdapter.Delete | src/state-sqlite.ts:66-68 | Removes the key |
| StateSqlite.SqliteStateAdapter.AcquireLock | src/state-sqlite.ts:87-97 | The lease's acquire step, and a new lock object if and only if it was granted |
| StateSqlite.SqliteStateAdapter.ReleaseLock | src/state-sqlite.ts:99-101 | The lease's release step, by token |
| StateSqlite.SqliteStateAdapter.ExtendLock | src/state-sqlite.ts:103-113 | The lease's extend step, and the lock object is updated if and only if it was granted |
| StateSqlite.SqliteStateAdapter.ForceReleaseLock | src/state-sqlite.ts:115-117 | The lease's forced release |
| StateSqlite.SqliteStateAdapter.AppendToList | src/state-sqlite.ts:121-136 | The new row is at the index after the last, with its own expiry if it has a time to live, and of the list exactly the last maxLength indices stay; all if that is 0 |
| StateSqlite.SqliteStateAdapter.GetList | src/state-sqlite.ts:138-146 | The values of exactly the visible rows, in the order of their indices |
| StateSqlite.SqliteStateAdapter.Enqueue | src/state-sqlite.ts:150-154 | The queue's enqueue, and the depth read after it |
| StateSqlite.SqliteStateAdapter.Dequeue | src/state-sqlite.ts:156-164 | Takes the row of the lowest index under the queue key, if there is one |
| StateSqlite.SqliteStateAdapter.QueueDepth | src/state-sqlite.ts:166-172 | The number of rows of the queue |
| StateSqlite.SqliteStateAdapter.Cleanup | src/state-sqlite.ts:176-181 | Removes from each table exactly the rows whose expiry is past |
| Crc32.BuildTable | setup/lib/teams-manifest.ts:117-127 | The nested loops fill in, for every byte, eight shifts of it |
| Crc32.Crc32 | setup/lib/teams-manifest.ts:129-135 | The table-driven loop computes the bit-by-bit register of PNG (Second Edition), section 5.5 and Annex D, for every input |
| Crc32.TableStep | setup/lib/teams-manifest.ts:131-133 | One table step is the eight bits of the byte entering one by one |
| Crc32.ByteStepInjective | setup/lib/teams-manifest.ts:129-135 | The register after a byte determines the register before it |
| Crc32.BurstsChangeTheCrc | setup/lib/teams-manifest.ts:129-135 | Inputs of one length that differ only inside a window of at most four bytes have different checksums |
| Crc32.EndMarkerCrc | setup/lib/teams-manifest.ts:129-135 | The checksum of an IEND chunk is AE 42 60 82, as in every PNG file: polynomial, first value, inversion and bit order are those of PNG |
| Png.MakeChunk | setup/lib/teams-manifest.ts:137-144 | Length, type, data and checksum of PNG section 5.3, or the range error |
| Png.EncodePng | setup/lib/teams-manifest.ts:150-178 | The nested loops and chunks write exactly the specified file, for buffers of any size, or the range error |
| Png.ThreeChunks | setup/lib/teams-manifest.ts:172-177 | A reader that checks lengths and checksums finds the signature and exactly IHDR, IDAT and IEND |
| Png.FileLayout | setup/lib/teams-manifest.ts:150-178 | Every file, byte by byte: signature, header fields with their big-endian sizes, data, and the twelve bytes that end every PNG file |
| Png.UnfilterUndoes | setup/lib/teams-manifest.ts:162-170 | Undoing filter type 0 (PNG section 9.2) returns the pixels, cut or filled to the size of the image |
| Png.DecodeOfEncode | setup/lib/teams-manifest.ts:150-178 | The file decodes to its image for all sizes within 32 bits and all buffers, if and only if no side is zero |
| Png.FullBufferComesBack | setup/lib/teams-manifest.ts:146-149 | A buffer of width * height * 4 bytes comes back unchanged |
| Png.DamageIsNoticed | setup/lib/teams-manifest.ts:137-144 | A reader rejects a chunk damaged inside a window of at most four bytes |
| StatusStream.StatusStream.constructor | setup/lib/runner.ts:58-64 | The stream starts empty |
| StatusStream.StatusStream.Write | setup/lib/runner.ts:66-75 | The loop is the pure fold over the complete lines; the rest stays buffered; each closed block is announced once, in order |
| StatusStream.StatusStream.ProcessLine | setup/lib/runner.ts:77-97 | One line changes the open block and the blocks as the parser's step does |
| StatusStream.FeedTwice | setup/lib/runner.ts:66-75 | Two writes are one write of both chunks |
| StatusStream.StartsExactly | setup/lib/runner.ts:78-82 | A line starts a block of a type if and only if it begins with the marker of that type |
| StatusStream.EndsExactly | setup/lib/runner.ts:83-90 | A line ends a block if and only if it begins with the end marker |
| StatusStream.FieldsExactly | setup/lib/runner.ts:91-96 | Any other line is a field if and only if it has a colon with a key before the first one; key and value are what stands on both sides, trimmed |
| StatusStream.TrimExactly | setup/lib/runner.ts:93-95 | Trimming takes away the white space at both ends and nothing else |
| StatusStream.SpacesExactly | setup/lib/runner.ts:93-95 | A character is trimmed away if and only if it is white space or a line terminator of ECMAScript |
| StatusStream.ChunkingIsInvisible | setup/lib/runner.ts:66-75 | Any split of a text leaves the same blocks, open block, buffer and transcript |
| StatusStream.EmitStatus | setup/status.ts:6-16 | The loop prints the lines of the block |
| StatusStream.PrintableParses | setup/status.ts:6-16 | A printable block between other output is read as exactly that block, and no block is left open |
| StatusStream.PrintedBlockIsAppended | setup/lib/runner.ts:77-97 | From any state, also with a block left open, a printed block between other output is closed and follows the blocks closed before |
| StatusStream.PrintsAreReadInOrder | setup/lib/runner.ts:66-97 | Blocks printed one after another are read as exactly those blocks, in their order |
| StatusStream.ParseAfterPrint | setup/lib/runner.ts:77-97 | A printed block is read back as itself if and only if it is printable |
| StatusStream.FeedWellParsed | setup/lib/runner.ts:78-96 | Every block the parser makes has a solid type, and trimmed, colon-free keys that are not empty |
| StatusStream.SurvivorHasNoMarker | setup/lib/runner.ts:78-90 | A field line that looks like a marker spoils its block |
| WrapLine.VisibleLengthOfJoin | setup/lib/theme.ts:133-137 | Words joined by a space have the visible lengths of the words plus one, whatever colour codes they carry |
| WrapLine.VisibleLengthExactly | setup/lib/theme.ts:133-137 | The visible length is the number of characters that are in no colour code |
| WrapLine.WrapWords | setup/lib/theme.ts:163-182 | The loop makes the specified rows |
| WrapLine.Wrap | setup/lib/theme.ts:161-183 | A line that fits is unchanged; a longer one whose greedy rows are kept is printed as a breaking of its words with the fewest rows |
| WrapLine.LayoutOfLine | setup/lib/theme.ts:167-181 | Where the greedy rows are of a kind that the loop keeps, the loop makes the greedy rows |
| WrapLine.GreedyIsBreaking | setup/lib/theme.ts:167-181 | The rows keep every word in order, and each fits or is a single word |
| WrapLine.GreedyNeedsFewest | setup/lib/theme.ts:167-181 | No other such breaking has fewer rows |
| WrapLine.WrapIsCorrectAndOptimal | setup/lib/theme.ts:161-183 | Both, for the text of a line whose greedy rows are kept |
| WrapLine.LineIsKeptExactly | setup/lib/theme.ts:161-183 | Wrapping a line only turns spaces into line breaks, if and only if it fits or its greedy rows are kept |
| WrapLine.KeptAtEveryWidthExactly | setup/lib/theme.ts:161-183 | The same at every width, if and only if every word but the last is visible and the last is not empty, or the line has no space |
| WrapLine.WrappingOnlyBreaksLinesExactly | setup/lib/theme.ts:103-110 | Wrapping a text only turns spaces into line breaks, if and only if each line fits or has its greedy rows kept; blank and short indented lines always fit |
| ShellQuote.QuotingRoundTrips | src/container-runner.ts:74-76 | Quoting words, joining them with spaces and splitting by the rules of POSIX.1-2017 Shell Command Language sections 2.2.1, 2.2.2 and 2.3 gives the same words, if and only if none has a NUL |
| ShellQuote.ScanQuotedAll | src/container-runner.ts:614 | The same for the list that follows any words already read |

## Left out

- Adapters, network calls, Docker, OneCLI, mounts, image builds, typing indicators, audit records and log lines: only their outcomes appear, as parameters.
- SQLite and the file system: tables and directories are maps with atomic operations. `JSON.stringify` followed by `JSON.parse` is taken to give the value back.
- Delivery.DeliveredAtMostOnce: writes to the host's tables are assumed to succeed; what happens when `markDelivered` itself throws is a settle step that fails after the adapter took the message.
- Delivery.CountersAreOwnExactlyForUniqueIds: nothing is assumed to throw between `markDelivered` and the end of its try block (`src/delivery.ts:204-224`). The audit call catches its own errors; a throw of `pauseTypingRefreshAfterDelivery`, which is not part of this model, would leave a counter on a delivered row.
- Delivery.DeliveryHost.Enter: which rows are due, and in which order, is a parameter; `deliver_after` and timestamps are not modelled.
- Containers.OneContainerPerSession: what spawnContainer sets up before it starts the process is one outcome, success or failure; the container status column is not modelled. Events of a process are assumed to come after the promise of the spawn that started it has settled, as they do in Node.js.
- HostSweep.LivelyContainerIsNeverKilled: for a container that finds no orphan claims; orphans are in HostSweep.SweepKillsExactly. A container's start deletes orphan claims, which is a settling of each.
- HostSweep.SweepKillsExactly: heartbeat times are whole milliseconds, and a declared timeout is a whole number.
- HostSweep.SweptSession.SweepSession: the awaited wake is one outcome; the container does nothing of its own within a sweep. Step 5, recurrence, is not part of this model.
- Retry.RetriesAreSpaced: other code that edits a message's tries or due time, such as cancelling a scheduled task, is not part of this model.
- Router.StickyFollowsMentionsExactly: sessions are not closed, and only the fan-out creates them; closings are in Router.SessionsAreUniqueExactly.
- Router.SessionRouter.RouteInbound: the interceptor, the lookup and creation of messaging groups, the channel-request gate, attachments and mirrors come before or after what is modelled; patterns and gates, the command gate among them, are given as their answers.
- Router.RoutedIdsAreDistinctExactly: a generated id, for a message without one, is a parameter.
- HandoffQueue.HandoffBridge.ProcessQueue: notes, progress files and the choice of project settings are a plan for each file; two bridges at once are not modelled.
- TimedMap.LazyIsEager: assumes a clock that does not run backwards, and entries that do not expire at the very time 0; so does TimedMap.GetAnswersExactly.
- TrimmedList.QueuesAreBoundedFifos: lists other than queues appear only as appends that leave the queues alone.
- Subscriptions of `SqliteStateAdapter`: one row for each thread, with no expiry.
- Png.DecodeOfEncode: deflate and inflate are parameters, assumed inverse to each other; that a buffer can be allocated is assumed.
- StatusStream.EmitStatus: field values are given as text, in the order of the object's keys; integer-like keys, which JavaScript moves to the front, change no result since keys are distinct.
- WrapLine.Wrap: a character is one code unit, as in JavaScript; wide glyphs are not modelled.
- ShellQuote.QuotingRoundTrips: of the shell, only quoting and splitting into words; a character that would start another construct is refused rather than interpreted.
- Setup wizards, icons, manifests, `.env` files, provider and folder names, regular expressions and dashboards: they would add only easy members.
