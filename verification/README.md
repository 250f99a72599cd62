# A verified model of the NanoClaw host

NanoClaw is a host process that routes chat messages to agents in containers and delivers their answers.
Most of its guarantees live in small state machines around `await`s, in tables that expire lazily, and in
text and byte formats that one part writes and another part reads. This project models those parts in
Dafny and proves what they keep over every run, every interleaving and every input.

| file | what it models |
|---|---|
| `RateLimiter.dfy` | the sliding-window limiter, its check and its record being two separate Redis transactions |
| `Delivery.dfy` | outbound delivery: two poll loops and direct callers draining the same sessions |
| `ContainerRunner.dfy` | waking, killing, restarting and exiting containers |
| `OutgoingQueue.dfy` | the bounded WhatsApp queue that a flush drains while senders push and shed |
| `HostSweep.dfy` | stuck detection, and retry of abandoned messages with exponential backoff |
| `Routing.dfy` | engagement of wired agents, session lookup and the sticky thread |
| `PairingCode.dfy`, `Pairing.dfy` | one-time pairing codes and the store of pairings |
| `StateLocks.dfy`, `StateKeyValue.dfy`, `StateLists.dfy`, `StateAdapter.dfy` | the SQLite state adapter: locks, values and queues that expire lazily |
| `Crc32.dfy`, `Png.dfy` | the table-driven CRC-32 and the PNG writer, against RFC 2083 |
| `StatusStream.dfy` | the streaming parser of status blocks and the printer that feeds it |
| `Utf8.dfy`, `OutputBytes.dfy` | the bytes that parser is fed with, decoded chunk by chunk |
| `SplitForLimit.dfy` | cutting a text into messages a platform accepts |
| `EnvFile.dfy`, `EnvPatterns.dfy`, `EnvLookup.dfy` | the upsert of one line of `.env`, its replacement patterns, and what the lookup of a key then finds |
| `Text.dfy`, `Options.dfy` | the JavaScript string operations used above, and an option type |

Each state machine has two layers. A datatype of states with a step function says what one uninterrupted
stretch of code does; the main results are about all runs of that step function, or about a simpler object
it refines. Beside it stands a class with the fields of the source, whose methods follow its branches and
loops (a SQL or Redis statement being one expression) and are proved to do exactly that step. What one step
does is also stated on the fields of the state, in the numbers of the source, apart from the step function.

## Assumptions

- JavaScript code between two suspensions, one Redis `MULTI` and one SQLite statement are atomic.
- Clocks are nondecreasing naturals. All readings of the clock in one step agree, except that `get` and
  `setIfNotExists` of the state adapter read it twice.
- Lock tokens, message ids and sorted-set members are unique. Random draws and gate verdicts are inputs.
- Rate limiter: both transactions return their results, and `resetUser` is not called.
- Delivery: `markDelivered` and `markDeliveryFailed` do not throw; the process does not restart, which
  would forget the attempt counts. An attempt succeeds when the awaited call resolves, which is also what
  happens when no adapter is configured.
- Containers: `close` and `error` are delivered when no microtask is waiting. A process raises `close` at
  most once; an `error` may come before it, or from a process that stays alive.
- Sweep: the sweeps of a session follow each other, as the loop awaits each of them.
- Routing: the session tables are changed by routing only, and no session is closed.
- zlib is a pair of functions of which only `inflate(deflate(x)) == x` is known.
- A `char` is one UTF-16 code unit. Dafny's `char` has no surrogates, so texts that contain them are outside
  the model; in `Utf8.dfy` and `OutputBytes.dfy` a `char` is a Unicode scalar value instead.
- `Buffer.toString('utf-8')` replaces each maximal part of an ill-formed sequence by U+FFFD (the Unicode
  Standard, section 3.9).

## Where the code does not do what one would expect

Each line names a lemma with a concrete run or input, and the lemma that says exactly when the expected
property holds.

- `RateLimiting.OvershootIsReached`: k calls between check and record exceed the limit by exactly k - 1, and never by more (`WindowsAreBounded`).
- `Containers.StrayErrorDuplicates`, `Containers.LateCloseDuplicates`: a handler that frees the entry of a live container leads to a second one; nothing else does (`TrackingSurvives`, `AlwaysTrackedExactlyWhen`).
- `Outgoing.QueueReaches501`: the queue of at most 500 holds 501 texts, exactly by a failed flush in front of a full queue (`LimitSurvives`).
- `Outgoing.FailedSendWaitsForReopen`: a text waits on an idle open connection, exactly after a send that failed on one (`QuietSurvives`).
- `Routing.OneSessionExactlyWhen`: an empty thread id gets a new session for every message of a per-thread wiring; no other thread id does.
- `Routing.AccumulateEngagesUnasked`: in a sticky wiring that accumulates, a second plain message engages (`StickyRuleHoldsExactlyWhen`).
- `Pairing.PendingIsPushedOut`: sweeping "old consumed/invalidated records" also drops a pending one (`DroppedExactlyWhen`).
- `Pairing.ReusedCodeReportsTheOldPairing`: looking up a new pairing by its code can answer for an older one (`FreshIsPendingExactlyWhen`).
- `Locks.ExpiredLockRevives`: an expired lock comes back, exactly while its row is there (`ExtendRevivesExactlyWhen`).
- `Locks.ForceReleaseBreaksExclusion`: a forced release breaks exclusion, exactly when somebody holds the lock (`ForcedReleaseIsSafeExactlyWhen`).
- `Lists.EnqueueRefines`: a maximum size of 0 means none, and a negative one empties the queue.
- `Lists.OverlappingEnqueues`: an enqueue that overlaps other calls returns a depth that is not its own (`OwnDepthExactlyWhen`).
- `OutputBytes.CutInsideGarbles`: a character whose bytes arrive in two chunks is garbled (`ReadAsWrittenExactlyWhen`).
- `EnvLookup.IndentedLineShadows`: a line for the key that is indented, before any that is not, hides every later upsert (`LookupAfterUpsertExactlyWhen`, `PlainFiles`).
- `EnvLookup.CarriageReturnSpoils`: line ends other than LF and CRLF set the upsert and the lookup at odds (`LookupAfterUpsertExactlyWhen`, `OthersKeptExactlyWhen`).
- `EnvPatterns.DollarIsExpanded`: `$&` in a value is expanded; which values are stored as given is `StoredAsGivenExactlyWhen`.
- `Splitting.EndsExactlyWhen`: with a limit of 0 the loop does not end for any text with something visible in it.

## Model

| member | source | states |
|---|---|---|
| RateLimiting.CheckCountsTheWindow | src/cloud/rate-limiter.ts:25-34 | in every state that keeps the invariant, what a check counts after pruning is exactly the accepted calls of the window ending now: pruning and key expiry lose nothing a later check needs |
| RateLimiting.StepKeepsInv | src/cloud/rate-limiter.ts:20-60 | checks, records, lost records, key expiry and time keep the invariant behind that count |
| RateLimiting.WindowsAreBounded | src/cloud/rate-limiter.ts:20-60 | in every interleaving with at most k calls between check and record, every window of one minute per user and of one hour overall holds at most limit + k - 1 accepted calls, a user's limit being the smaller of the two, and none if a limit is 0 |
| RateLimiting.OvershootIsReached | src/cloud/rate-limiter.ts:31-57 | that bound is attained, for every pair of limits and every k, by a single user in its own window and by distinct users in the global one |
| RateLimiting.RefusedExactlyWhenFull | src/cloud/rate-limiter.ts:33-49 | in every reachable state a call is refused exactly when its user's window, or else the global one, really is full, with the matching retry time |
| RateLimiting.RecordedForItsTime | src/cloud/rate-limiter.ts:51-57 | a recorded call is in both sets, and Redis can drop its user's key exactly from one hour on and the global key exactly from two hours on |
| RateLimiting.RateLimiter.constructor | src/cloud/rate-limiter.ts:14-18 | a new limiter has recorded nothing |
| RateLimiting.RateLimiter.CheckTransaction | src/cloud/rate-limiter.ts:20-49 | the first half of a call prunes both sets and decides like the check step |
| RateLimiting.RateLimiter.RecordTransaction | src/cloud/rate-limiter.ts:51-57 | the second half adds the call to both sets and renews both expiry times |
| Delivering.AtMostThreeAttempts | src/delivery.ts:151-236 | in every interleaving of drains a message is tried at most three times and at most one try succeeds; delivered is recorded exactly for those that succeeded, failed only after three failures |
| Delivering.NeverAgain | src/delivery.ts:34-50 | once a message is recorded as delivered or failed, no later event in any run tries it again or changes the record |
| Delivering.DeliveredInOrder | src/db/session-db.ts:270-282 | in every reachable state, what a drain has yet to deliver follows the order of its session's outbox, also when rows were added meanwhile |
| Delivering.TakenInOrder | src/delivery.ts:182-188 | of two due messages without a delivered row the earlier one stands before the later one in what is selected |
| Delivering.PollTakesAll | src/delivery.ts:151-195 | a poll starts a drain of exactly the outbox messages without a delivered row, the first of them being attempted, or changes nothing: when the session is in flight, cannot be opened or has nothing undelivered |
| Delivering.SettleBooks | src/delivery.ts:194-231 | after an attempt the message is delivered, or failed if it was the third failure, or its count is one higher |
| Delivering.RunsThrough | src/delivery.ts:157-236 | a drain whose attempts all settle, each in its own way, ends, releases its session, and has recorded as delivered every message whose attempt succeeded |
| Delivering.DrainDeliversAll | src/delivery.ts:151-236 | from any state of the invariant, a poll of a free session whose attempts all succeed leaves no message of its outbox without a delivered row |
| Delivering.StepKeepsInv | src/delivery.ts:151-236 | every event keeps: one drain per session at most, its remaining snapshot disjoint from the delivered table, every attempt accounted for |
| Delivering.DeliverKeepsInv | src/delivery.ts:151-189 | starting a drain, or skipping because one is in flight, keeps the invariant |
| Delivering.SettleKeepsInv | src/delivery.ts:194-231 | the outcome of an attempt and the move to the next message keep the invariant |
| Delivering.SettledStaysSettled | src/db/session-db.ts:296-306 | no event overwrites a row of the delivered table or starts an attempt for it |
| Delivering.SelectUndelivered | src/delivery.ts:182-188 | the filter keeps exactly the due messages without a delivered row, once each, and keeps them in the order in which they are due |
| Delivering.OutboundDelivery.DeliverSessionMessages | src/delivery.ts:151-195 | up to its first await the call takes the session, snapshots what is undelivered and starts the first attempt, or changes nothing |
| Delivering.OutboundDelivery.Book | src/delivery.ts:196-230 | a success is recorded and its count forgotten; a failure is counted, and the third one recorded as failed |
| Delivering.OutboundDelivery.AttemptSettled | src/delivery.ts:194-231 | resuming after an attempt is the settle step: book the outcome, then go on |
| Delivering.OutboundDelivery.NextMessage | src/delivery.ts:157-161 | the drain starts its next message, or ends and releases its session |
| Containers.TrackingSurvives | src/container-runner.ts:158-190 | a step keeps "the active map lists exactly the live processes" if and only if it does not free the entry of a live process: by an `error` from a process that lives on, or by the late `close` of a failed one whose session has a new container |
| Containers.AlwaysTrackedExactlyWhen | src/container-runner.ts:85-190 | over a whole run this holds throughout if and only if no step does that |
| Containers.OneContainerPerSession | src/container-runner.ts:85-190 | in every interleaving of wakes, setups, kills and exits without such a step no session has two live containers, and an entry in the active map means exactly that process is live |
| Containers.StrayErrorDuplicates | src/container-runner.ts:185-190 | an `error` from a process that lives on can lead to two live containers |
| Containers.LateCloseDuplicates | src/container-runner.ts:178-190 | so can a late `close`, even without such an error |
| Containers.WakesJoin | src/container-runner.ts:85-106 | any number of wakes in a row amounts to one |
| Containers.FailedSetupIsForgotten | src/container-runner.ts:95-103 | a setup that fails leaves no trace once its promise has settled: the active map and the processes are as before, no wake is in flight, and the next wake begins a new setup |
| Containers.FinishedSetupRuns | src/container-runner.ts:95-161 | a setup that succeeds leaves one new live process, entered in the active map, and no wake in flight; the next wake changes nothing |
| Containers.KillsWithWakeRestartOnce | src/container-restart.ts:43-52 | when a process closes, all its kill-with-wake requests together begin exactly one fresh setup if the session still exists and none is under way; ending by `error` answers none of them |
| Containers.SpawnsAreEarned | src/container-runner.ts:85-106 | over every run a session never gets more containers than there were wakes and closes that asked for one |
| Containers.RestartRegistersOnce | src/container-restart.ts:21-53 | restarting a group registers exactly one callback on the live process of each listed session and changes nothing else |
| Containers.RunningIs | src/container-restart.ts:25-31 | a restart is about exactly the sessions of the group that run, in the order of the group |
| Containers.PlainRestart | src/container-restart.ts:43-52 | a restart without a message to write registers no callback |
| Containers.ContainerRunner.WakeContainer | src/container-runner.ts:85-106 | returns when running, joins when a wake is in flight, else begins a setup |
| Containers.ContainerRunner.SetupFinished | src/container-runner.ts:95-161 | a successful setup enters the new process in the active map, a failed one leaves it alone; in both cases the promise is about to leave the wake map, as `Containers.FailedSetupIsForgotten` and `Containers.FinishedSetupRuns` need |
| Containers.ContainerRunner.ProcessErrored | src/container-runner.ts:185-190 | the handler removes the entry of the session, whether or not the process is still alive |
| Containers.ContainerRunner.ProcessClosed | src/container-runner.ts:178-183 | the handler removes the entry, then the registered callbacks run |
| Containers.ContainerRunner.KillContainer | src/container-runner.ts:194-208 | registers the callback on the process of a tracked session; unknown sessions change nothing |
| Containers.ContainerRunner.RestartAgentGroupContainers | src/container-restart.ts:21-53 | writes one on-wake message per running session when there is one to write, kills each, and returns how many |
| Outgoing.ConservedAndOrdered | src/channels/whatsapp.ts:463-577 | in every reachable state each text is in exactly one place (being sent, sent, held by the flush, queued, shed), what the flush sent, holds and will send is in push order, and at most 501 texts wait |
| Outgoing.StepConserves | src/channels/whatsapp.ts:541-577 | every event keeps each text in exactly one place |
| Outgoing.StepInOrder | src/channels/whatsapp.ts:463-492 | every event keeps the push order of what was and will be flushed, and the bound |
| Outgoing.LimitSurvives | src/channels/whatsapp.ts:475-486 | a step exceeds the limit of 500 if and only if it is a failed flush in front of a full queue |
| Outgoing.WithinLimitExactlyWhen | src/channels/whatsapp.ts:463-577 | over a whole run the queue never exceeds 500 if and only if there is no such step |
| Outgoing.QueueReaches501 | src/channels/whatsapp.ts:475-486 | a run in which it does |
| Outgoing.OnlyFullQueueSheds | src/channels/whatsapp.ts:543-550 | a text is shed only by a push on a queue of at least 500, and it is the head |
| Outgoing.SentExactlyWhenAccepted | src/channels/whatsapp.ts:468-577 | an event appends to the log of sent texts exactly when a send of its own or of the flush has resolved, and appends that text |
| Outgoing.SentMeansAccepted | src/channels/whatsapp.ts:463-577 | over every run a text is booked as sent if and only if some send of it resolved |
| Outgoing.FailedSendIsQueued | src/channels/whatsapp.ts:565-576 | a direct send that fails puts its text at the end of the queue, whether or not the connection is still open |
| Outgoing.SendGoes | src/channels/whatsapp.ts:541-556 | a new text is being sent directly if the connection is open and else stands last in the queue |
| Outgoing.FlushGoesOn | src/channels/whatsapp.ts:468-471 | a flush whose item was sent takes the next one, until the queue is empty |
| Outgoing.OpenAndClose | src/channels/whatsapp.ts:670-731 | opening loses and reorders nothing and leaves a flush running exactly when one ran or something was queued; closing changes the connection only |
| Outgoing.QuietSurvives | src/channels/whatsapp.ts:463-577 | with nothing waiting on an idle open connection, a step leaves it so if and only if it is not a failed flush, or a failed direct send without a flush, on an open connection |
| Outgoing.QuietExactlyWhen | src/channels/whatsapp.ts:463-577 | over a whole run nothing ever waits on an idle open connection if and only if there is no such step |
| Outgoing.FailedSendWaitsForReopen | src/channels/whatsapp.ts:565-576 | a run in which a failed direct send leaves its text queued on an open connection with no flush running |
| Outgoing.WaitsUntilOpen | src/channels/whatsapp.ts:730-731 | only a connection that opens starts a flush: in every run without one, an idle flush stays idle |
| Outgoing.WhatsAppQueue.Enqueue | src/channels/whatsapp.ts:543-552 | sheds the oldest when full, then appends |
| Outgoing.WhatsAppQueue.SendRawMessage | src/channels/whatsapp.ts:541-556 | queues when disconnected, else suspends in its own send |
| Outgoing.WhatsAppQueue.SendSettled | src/channels/whatsapp.ts:556-576 | does the settle step: a send that resolved is booked as sent and any other text is queued, in either connection state (`Outgoing.SentExactlyWhenAccepted`, `Outgoing.FailedSendIsQueued`) |
| Outgoing.WhatsAppQueue.FlushOutgoingQueue | src/channels/whatsapp.ts:463-471 | does nothing when flushing or empty, else takes the head |
| Outgoing.WhatsAppQueue.ConnectionOpened | src/channels/whatsapp.ts:670-731 | marks the connection open and starts a flush |
| Outgoing.WhatsAppQueue.FlushResumed | src/channels/whatsapp.ts:468-491 | a sent item is followed by the next one; a failed one goes back to the head and the flush ends |
| Sweeping.DecideStuckAction | src/host-sweep.ts:82-118 | the loop decides as the specification does: silence past the ceiling first, then the first stuck claim |
| Sweeping.LeftAloneExactlyWhen | src/host-sweep.ts:82-118 | a container is left alone if and only if it is not silent past its ceiling and none of its claims is older than its tolerance without a heartbeat since |
| Sweeping.DecisionIs | src/host-sweep.ts:82-118 | the decision in milliseconds: a heartbeat that is there but older than 30 minutes, or than Bash has declared, comes first; then the first claim older than 60 seconds, or than Bash has declared, without a heartbeat since; else nothing is killed |
| Sweeping.TriesAreBounded | src/host-sweep.ts:273-328 | over every run, even when clearing claims always fails, tries never exceed 5, each bump waits out the 5, 10, 20, 40 or 80 seconds the previous one set, and only a message with 5 tries is failed |
| Sweeping.RetriedFiveTimesThenFailed | src/host-sweep.ts:281-308 | a message abandoned n times and never completed has min(n, 5) tries and is failed exactly at the sixth |
| Sweeping.ResetRetries | src/host-sweep.ts:280-308 | a claimed pending message whose retry time is absent or has come is failed if it had 5 tries, and else has one try more and waits 5, 10, 20, 40 or 80 seconds |
| Sweeping.ResetSpares | src/host-sweep.ts:281-328 | any other message stays as it is, and only claims are cleared |
| Sweeping.FiveRetriesThenFailed | src/host-sweep.ts:273-328 | n rounds of claiming a new message, waiting at least 80 seconds and resetting leave it with min(n, 5) tries, and failed if and only if n is at least 6 |
| Sweeping.SweepRetries | src/host-sweep.ts:188-201 | a sweep that finds the container gone, or kills it, gives an abandoned message its next try, or fails it after five |
| Sweeping.ContainerWrites | container/agent-runner/src/db/connection.ts:170-177 | a container that starts drops every claim and keeps every acknowledgement; claims and acknowledgements carry the time in whole seconds |
| Sweeping.OldClaimsNeverKill | src/host-sweep.ts:311-327 | after a successful clear the decision is kill-claim only for a claim made since the clear, and only once the tolerance has passed, whole seconds aside |
| Sweeping.SweepIsGentle | src/host-sweep.ts:168-201 | whatever happens while a sweep awaits the wake, it raises tries by at most one, leaves a healthy container's claims alone, and clears all claims in the other cases when it can |
| Sweeping.KillMeans | src/host-sweep.ts:228-262 | the claims of the table, in any order, ask for a kill exactly when the container is silent or stuck |
| Sweeping.DoneIsFinal | src/db/session-db.ts:181-194 | after a sync a message the container is done with is completed and never touched again in any run; any other message keeps its state |
| Sweeping.HostSweep.SyncProcessingAcks | src/db/session-db.ts:181-194 | the loop over the acknowledged ids completes exactly those messages, wherever they stand, and no other |
| Sweeping.HostSweep.RetryMessage | src/host-sweep.ts:282-308 | one turn of the loop on the message table, whose effect on each message `Sweeping.ResetRetries` and `Sweeping.ResetSpares` state in full: skip, fail, or bump with backoff |
| Sweeping.HostSweep.RetryClaimed | src/host-sweep.ts:280-309 | exactly the claimed messages are retried, once each |
| Sweeping.HostSweep.ResetStuckProcessingRows | src/host-sweep.ts:273-328 | retries the claimed messages, then drops their claims if it can |
| Sweeping.HostSweep.GetProcessingClaims | src/db/session-db.ts:210-214 | the list has exactly the processing rows, with their timestamps |
| Sweeping.HostSweep.EnforceRunningContainerSla | src/host-sweep.ts:228-262 | kills exactly when it must, and resets the rows exactly when it kills |
| Sweeping.HostSweep.BeginSweep | src/host-sweep.ts:168-186 | up to its await a sweep syncs, and asks for a wake exactly when a pending trigger message is due, to the second, and nothing runs |
| Sweeping.HostSweep.ResumeSweep | src/host-sweep.ts:188-201 | after it, a running container is judged and otherwise the abandoned messages are reset |
| Routing.OneSessionExactlyWhen | src/session-manager.ts:84-125 | whatever is routed, an agent never has two sessions for one group and thread, if and only if the thread id is not the empty string |
| Routing.PlainMessageEngagesExactlyWhen | src/router.ts:446-453 | in a sticky wiring with drop policy, in a group on a threaded adapter, a plain message engages if and only if an earlier message of its thread mentioned the bot and passed both gates |
| Routing.RunActivates | src/router.ts:332-383 | over every run the session of a thread exists exactly when it existed before or such a message came |
| Routing.NextActivates | src/router.ts:472-477 | one message creates the session of a thread exactly when it mentions the bot in that thread and passes both gates |
| Routing.StickyRuleHoldsExactlyWhen | src/router.ts:409-457 | that rule holds over all runs for exactly the wirings that are mention-sticky, drop what they ignore, are not shared across the agent, and are in a group |
| Routing.AccumulateEngagesUnasked | src/router.ts:365-374 | with the accumulate policy a plain message creates the session, and the next one engages |
| Routing.OthersForget | src/router.ts:426-456 | a wiring of another mode, shared across the agent or outside a group ignores a plain message although its thread was activated |
| Routing.EngagedExactlyWhen | src/router.ts:332-457 | when a message engages an agent: by pattern, mention, or mention or existing session of the thread in a group, and past both gates |
| Routing.AccumulatedExactlyWhen | src/router.ts:365-383 | it is kept as context exactly by an accumulating wiring it does not engage; if a gate refused it, it is not even kept |
| Routing.GoesTo | src/session-manager.ts:84-125 | which session a message goes to, in every mode: it is created exactly when it is not there, and no other one is |
| Routing.Router.ResolveSession | src/session-manager.ts:84-125 | the looked-up session is returned, or one is created, and `created` says which |
| Routing.Router.RouteInbound | src/router.ts:328-396 | the fan-out handles the agents one by one, with whatever other fan-outs route while a delivery is awaited; each agent counts by the sessions at its own turn, and a drop is recorded exactly when every agent ignored the message, which then has changed nothing |
| Routing.FanOutIsRun | src/router.ts:332-384 | a fan-out interleaved with others is a run, so what holds over all runs holds for it |
| Routing.EveryAgentInOrder | src/router.ts:332-384 | with no other message in between, every wired agent gets its turn, in order, whatever came of the turns before |
| Routing.IgnoredLeavesNoTrace | src/router.ts:375-396 | a message that every agent ignores creates no session |
| Routing.Router.RouteToAgent | src/router.ts:332-383 | one agent engages, accumulates or ignores, and gets its session accordingly |
| PairingCode.CodeIsFaithful | src/channels/telegram-pairing.ts:107-113 | every draw gives a four-digit code and different draws give different codes |
| PairingCode.CarriesExactlyWhen | src/channels/telegram-pairing.ts:155-173 | a message carries a code if and only if, white space aside, it is those four digits, or the bot's name in any letter case, white space and those digits |
| Pairing.PairingInvariant | src/channels/telegram-pairing.ts:118-229 | over all runs: one pending pairing per intent at most, pending codes pairwise distinct, at most one attempt per pairing and it is its own code if and only if consumed, at most 51 records, numbered without gaps |
| Pairing.StepKeepsInv | src/channels/telegram-pairing.ts:118-229 | creating a pairing and consuming a message keep that invariant |
| Pairing.SettledStaysSettled | src/channels/telegram-pairing.ts:118-229 | over all runs a consumed or invalidated pairing never changes, and no pairing changes its code or intent |
| Pairing.EveryStatusIsExplained | src/channels/telegram-pairing.ts:118-229 | over all runs a consumed pairing was matched by a later message carrying its own code, whose sender it records; an invalidated one was superseded for its intent or hit by a message with another code |
| Pairing.MessageOutcome | src/channels/telegram-pairing.ts:184-227 | a pending code consumes its pairing, notes that one attempt in it and touches no other; any other code invalidates every pending pairing and notes the failed attempt there; a message without a code leaves the file as it is |
| Pairing.CreateOutcome | src/channels/telegram-pairing.ts:118-143 | a create that finds a code invalidates the pending records of its intent and no other, and appends a pending record with the first draw that no pending record uses |
| Pairing.FailsExactlyWhen | src/channels/telegram-pairing.ts:107-143 | creating fails if and only if all 50 draws are codes pending for other intents, and then the file is unchanged |
| Pairing.FreshIsPendingExactlyWhen | src/channels/telegram-pairing.ts:231-237 | the status of a new pairing's code is pending if and only if none of the newest 49 records before it has the same code |
| Pairing.ReusedCodeReportsTheOldPairing | src/channels/telegram-pairing.ts:231-243 | a pairing just created can be reported as consumed |
| Pairing.PendingIsPushedOut | src/channels/telegram-pairing.ts:100-105 | 51 later pairings drop one that is still pending, though nothing superseded or matched it |
| Pairing.DroppedExactlyWhen | src/channels/telegram-pairing.ts:100-105 | a record is dropped exactly when it is the oldest of 51 and a code can be allocated or the message carries one |
| Pairing.GenerateCode | src/channels/telegram-pairing.ts:107-116 | the first of the 50 draws that is not an active code, every earlier one being active, or failure when all are |
| Pairing.TelegramPairing.constructor | src/channels/telegram-pairing.ts:81-90 | without a file there are no pairings |
| Pairing.TelegramPairing.CreatePairing | src/channels/telegram-pairing.ts:118-143 | does the create step and returns the new pending record, which is the last one; a failure changes nothing |
| Pairing.TelegramPairing.TryConsume | src/channels/telegram-pairing.ts:180-229 | does the message step and returns a record exactly when a pending one had the code; that record is now consumed by this sender |
| Locks.HoldSurvives | src/state-sqlite.ts:87-117 | a step keeps "every live token holds its row" if and only if it is not a forced release of a thread somebody holds |
| Locks.MutualExclusion | src/state-sqlite.ts:87-117 | over all runs whose forced releases spare held threads, a thread never has two tokens that are unreleased and unexpired |
| Locks.ForcedReleaseIsSafeExactlyWhen | src/state-sqlite.ts:115-117 | a forced release is safe for everything that may follow if and only if nobody holds a live token of the thread |
| Locks.SupersededIsPowerless | src/state-sqlite.ts:99-113 | in every run, forced releases included, a superseded token can neither release nor extend anything, and stays superseded |
| Locks.AcquiredExactlyWhenFree | src/state-sqlite.ts:87-97 | an acquire succeeds exactly when nobody holds a live token of the thread |
| Locks.AcquireLocks | src/state-sqlite.ts:87-97 | unless an unexpired row is there, an acquire locks the thread with a new token until its time to live is over, counted from now |
| Locks.ExtendLocks | src/state-sqlite.ts:103-113 | an extend by the holder of the row locks the thread until its time to live is over, counted from now; by anybody else it changes nothing |
| Locks.LastsExactly | src/state-sqlite.ts:87-113 | a thread locked until some time: its token is live, another acquire is refused and a cleanup keeps the row exactly through that time |
| Locks.KeepsOthersOut | src/state-sqlite.ts:87-117 | over every run that ends by that time and in which the token is not released or extended and the thread not forced open, the lock holds and the thread gets no other token |
| Locks.RowsLeft | src/state-sqlite.ts:99-101 | a release deletes the row that carries the token and no other row; a cleanup exactly the expired ones |
| Locks.ExtendRevivesExactlyWhen | src/state-sqlite.ts:103-113 | extending an unreleased lock makes or keeps it live if and only if its row is still there |
| Locks.ExpiredLockRevives | src/state-sqlite.ts:103-113 | a run in which that brings back an expired lock |
| Locks.ForceReleaseBreaksExclusion | src/state-sqlite.ts:115-117 | a forced release lets two tokens be live |
| KeyValue.TableIsTtlMap | src/state-sqlite.ts:32-68 | over every run, whatever cleanups ran and however long a call takes between its two clock readings, all answers are those of an ideal map whose entries live until their expiry |
| KeyValue.StepRefines | src/state-sqlite.ts:32-68 | one operation answers as the ideal map does, a get as of its second clock reading, and keeps the two related |
| KeyValue.FoundForItsTime | src/state-sqlite.ts:32-50 | what was set is found exactly until its time to live is over, and for ever without one |
| KeyValue.InsertKeepsOut | src/state-sqlite.ts:52-64 | what a conditional insert stored keeps others out exactly until its time to live is over |
| KeyValue.DeletedIsGone | src/state-sqlite.ts:66-68 | after a delete a get finds nothing, an insert succeeds, and the other keys are as they were |
| Lists.EnqueueRefines | src/state-sqlite.ts:121-152 | the append of an enqueue: with a maximum of at least 1 the stored queue keeps exactly the newest entries up to it; with 0 nothing is trimmed; with a negative one nothing stays |
| Lists.DequeueRefines | src/state-sqlite.ts:156-164 | a dequeue returns the oldest entry and removes it |
| Lists.AppendIs | src/state-sqlite.ts:121-136 | an append to any rows: behind the highest index, with the given expiry, keeping exactly the newest indices up to the maximum length |
| Lists.QueueIsDropOldestFifo | src/state-sqlite.ts:121-172 | over every run, in which the two halves of enqueues and all other calls interleave in any way and drains restart the numbering, the queue answers like a first-in-first-out sequence that drops its oldest |
| Lists.EnqueueReturns | src/state-sqlite.ts:150-154 | an enqueue returns what the calls that ran between its halves have made of the depth after its own append |
| Lists.OwnDepthExactlyWhen | src/state-sqlite.ts:150-154 | whenever its second half comes it returns the depth after its own append, if and only if none of the calls in between changes the length: no put except on a queue full for it, no take except of an empty one |
| Lists.OverlappingEnqueues | src/state-sqlite.ts:150-154 | two overlapping enqueues both return 2, and one overtaken by a dequeue returns 0 |
| Lists.IdealKeepsNewest | src/state-sqlite.ts:130-135 | that sequence keeps, of its entries and the new one, the newest up to the maximum: all of them with a maximum of 0, none with a negative one |
| StateAdapter.SqliteStateAdapter.Cleanup | src/state-sqlite.ts:176-181 | all three tables lose exactly their expired rows |
| StateAdapter.SqliteStateAdapter.Get | src/state-sqlite.ts:32-43 | cleans up at the first clock reading, tests the row found at the second, and answers accordingly |
| StateAdapter.SqliteStateAdapter.Set | src/state-sqlite.ts:45-50 | replaces the entry |
| StateAdapter.SqliteStateAdapter.SetIfNotExists | src/state-sqlite.ts:52-64 | inserts unless a living entry is there, and says which |
| StateAdapter.SqliteStateAdapter.Delete | src/state-sqlite.ts:66-68 | removes the entry |
| StateAdapter.SqliteStateAdapter.AcquireLock | src/state-sqlite.ts:87-97 | does the acquire step, after which `Locks.AcquireLocks` and `Locks.LastsExactly` say for how long the thread is locked; returns a fresh token exactly when the lock was free |
| StateAdapter.SqliteStateAdapter.ReleaseLock | src/state-sqlite.ts:99-101 | deletes the row only if it carries the token |
| StateAdapter.SqliteStateAdapter.ExtendLock | src/state-sqlite.ts:103-113 | does the extend step, after which `Locks.ExtendLocks` and `Locks.LastsExactly` say for how long the thread is locked; returns whether the row carried the token |
| StateAdapter.SqliteStateAdapter.ForceReleaseLock | src/state-sqlite.ts:115-117 | deletes the row whoever holds it |
| StateAdapter.SqliteStateAdapter.AppendToList | src/state-sqlite.ts:121-136 | appends after the highest index and deletes up to the cutoff; other lists stay |
| StateAdapter.SqliteStateAdapter.BeginEnqueue | src/state-sqlite.ts:150-152 | up to its await an enqueue appends to the thread's queue; other lists stay |
| StateAdapter.SqliteStateAdapter.ResumeEnqueue | src/state-sqlite.ts:153 | then it returns the length of the queue as it is by that time |
| StateAdapter.SqliteStateAdapter.QueueDepth | src/state-sqlite.ts:166-172 | whatever sequence the stored rows represent, its length is returned |
| StateAdapter.SqliteStateAdapter.Dequeue | src/state-sqlite.ts:156-164 | removes and returns the row with the lowest index; other lists stay |
| Registers.IterateIsLinear | setup/lib/teams-manifest.ts:119-123 | iterating a linear step is linear |
| Crc.ShiftIsLinear | setup/lib/teams-manifest.ts:122 | one turn of the inner table loop is linear over exclusive or |
| Crc.EightShifts | setup/lib/teams-manifest.ts:117-132 | eight turns depend on the low byte only, up to a plain shift of the rest |
| Crc.ByteStep | setup/lib/teams-manifest.ts:132 | one turn of the crc loop feeds one byte to the bit-at-a-time register of RFC 2083 section 3.4 |
| Crc.MakeTable | setup/lib/teams-manifest.ts:117-127 | entry i is the byte i shifted eight times, for all 256 |
| Crc.FillEntry | setup/lib/teams-manifest.ts:120-124 | the inner loop computes one entry |
| Crc.Crc32 | setup/lib/teams-manifest.ts:129-135 | the table-driven result equals the bit-at-a-time CRC of every byte sequence |
| Crc.IendChecksum | setup/lib/teams-manifest.ts:117-135 | the checksum of the letters IEND is 0xae426082, as at the end of every PNG file |
| Crc.BurstIsDetected | setup/lib/teams-manifest.ts:129-135 | changing up to four consecutive bytes of any message always changes its checksum |
| Png.U32RoundTrip | setup/lib/teams-manifest.ts:138-139 | a 32-bit length, width or height reads back |
| Png.WordRoundTrip | setup/lib/teams-manifest.ts:141-142 | a checksum reads back from its four bytes |
| Png.UnfilterScanlines | setup/lib/teams-manifest.ts:161-169 | undoing the filter of the scanlines gives the rows back |
| Png.ReadChunk | setup/lib/teams-manifest.ts:137-144 | a reader takes a written chunk off the front of a file with its type, data and checksum intact, if its length is below 2^31 |
| Png.ReadThreeChunks | setup/lib/teams-manifest.ts:172-177 | it finds exactly IHDR, IDAT and IEND, and nothing after them |
| Png.ReadUndoesEncode | setup/lib/teams-manifest.ts:150-178 | reading undoes writing exactly when both dimensions are between 1 and 2^31 - 1 and the compressed data is shorter than 2^31 |
| Png.PixelsComeBack | setup/lib/teams-manifest.ts:146-178 | with width * height * 4 bytes of pixels, the same pixels come back |
| Png.FileIs | setup/lib/teams-manifest.ts:137-178 | the bytes of the file: signature, header chunk with width, height and format 8 6 0 0 0, one data chunk and the fixed end chunk, at their offsets; there is a file exactly when both dimensions and the data length are below 2^32 |
| Png.ScanlineAt | setup/lib/teams-manifest.ts:161-169 | each row of the scanlines is a 0 and then its pixels, with 0 for pixels past the end of the buffer |
| Png.EncodeChunk | setup/lib/teams-manifest.ts:137-144 | length, type, data, and the checksum of type and data |
| Png.FilterRows | setup/lib/teams-manifest.ts:161-169 | fills the buffer with every row behind a filter byte 0 |
| Png.FilterRow | setup/lib/teams-manifest.ts:165-168 | writes one row in place and leaves the bytes before it alone |
| Png.EncodePng | setup/lib/teams-manifest.ts:150-178 | the whole file, or failure when a number does not fit its field |
| StatusBlocks.StartStepIs | setup/lib/runner.ts:78 | a line matches the start pattern with a step exactly when it begins with the marker around that step and the step is a word |
| StatusBlocks.DrainReadsLines | setup/lib/runner.ts:69-74 | the loop processes every complete line of the buffer in order and keeps the rest |
| StatusBlocks.StartLine | setup/lib/runner.ts:78-82 | a start line opens an empty block, and a block still open is dropped without being announced |
| StatusBlocks.EndLine | setup/lib/runner.ts:83-89 | an end line closes and announces the open block, and does nothing without one |
| StatusBlocks.ColonLine | setup/lib/runner.ts:90-96 | in an open block any other line with a colon sets the trimmed key before its first colon to the trimmed rest, unless that key is empty |
| StatusBlocks.OtherLine | setup/lib/runner.ts:90-92 | a line without a colon, or outside a block, changes nothing |
| StatusBlocks.TwoWrites | setup/lib/runner.ts:66-75 | two writes are one write of both chunks |
| StatusBlocks.ChunkIndependent | setup/lib/runner.ts:66-97 | however the text is cut into string chunks, blocks, announcements, open block, line buffer and transcript are those of one single write |
| StatusBlocks.FieldSurvives | setup/status.ts:11-13 | the line of a field adds exactly that field to the open block if and only if the field is one its line can carry |
| StatusBlocks.PrintedLinesAre | setup/status.ts:10-14 | the printed lines, one by one |
| StatusBlocks.BlockRead | setup/status.ts:10-14 | the lines of one printed block parse back to it |
| StatusBlocks.ParseUndoesPrint | setup/status.ts:6-16 | any printed blocks with any other lines between them, cut into any string chunks, parse back to exactly those blocks in order |
| OutputBytes.ReadAsWrittenExactlyWhen | setup/lib/runner.ts:145-150 | when the bytes of a text arrive in chunks that are decoded one by one, the stream ends up as after one write of the text if and only if no chunk begins in the middle of a character |
| OutputBytes.DecodedLength | setup/lib/runner.ts:146 | chunks decoded one by one never give less text than was encoded, and give the same text exactly then |
| OutputBytes.PrintedBytesParse | setup/lib/runner.ts:145-150 | printed blocks come back from their bytes when the cuts fall between characters |
| OutputBytes.CutInsideGarbles | setup/lib/runner.ts:146 | a two-byte character whose bytes arrive in different chunks is not read as written |
| Utf8.DecodeAll | setup/lib/runner.ts:146 | decoding undoes encoding, whatever follows |
| Utf8.DecodeCut | setup/lib/runner.ts:146 | what is cut off a character at the end of a chunk decodes to one U+FFFD |
| Utf8.DecodeContinuation | setup/lib/runner.ts:146 | and each of its remaining bytes at the start of the next one to one more, as does each byte that no character begins with |
| Utf8.CompleteIsEncoding | setup/lib/runner.ts:146 | and nothing but the encoding of a character is read as that character |
| StatusBlocks.TerminalIsLast | setup/lib/runner.ts:160-161 | the terminal block is the last one with a non-empty STATUS, if there is one |
| StatusBlocks.StatusStream.constructor | setup/lib/runner.ts:58-64 | a new stream has seen nothing |
| StatusBlocks.StatusStream.WriteChunk | setup/lib/runner.ts:66-75 | does what the specification of one write says |
| StatusBlocks.StatusStream.HandleLine | setup/lib/runner.ts:77-97 | opens, closes, fills or ignores, in that order of tests |
| StatusBlocks.EmitStatus | setup/status.ts:6-16 | the printed text is the start line, the field lines and the end line |
| Splitting.EndsExactlyWhen | src/channels/chat-sdk-bridge.ts:106-120 | the loop ends if and only if the limit is at least 1 or nothing in the text is visible |
| Splitting.SplitForLimit | src/channels/chat-sdk-bridge.ts:106-120 | whenever it ends it yields the chunks the following rows are about |
| Splitting.CutIsBest | src/channels/chat-sdk-bridge.ts:111-114 | the cut is the last paragraph break at positions 1..limit, else the last newline, else the last space; a hard cut happens exactly when there is neither newline nor space |
| Splitting.SplitsAtBest | src/channels/chat-sdk-bridge.ts:106-120 | of a text that does not fit, the first chunk is what stands before the best cut, and the others are the chunks of what follows it |
| Splitting.FitsUnchanged | src/channels/chat-sdk-bridge.ts:107 | a text that fits is sent as it is |
| Splitting.Reassembles | src/channels/chat-sdk-bridge.ts:106-120 | the chunks are the text but for white space between them and at its end, and none but the last ends in white space |
| Splitting.ChunksFit | src/channels/chat-sdk-bridge.ts:106-120 | every chunk has at most `limit` characters |
| Splitting.NothingVisibleLost | src/channels/chat-sdk-bridge.ts:106-120 | the characters other than white space are those of the text, in order |
| Splitting.LaterChunksAreVisible | src/channels/chat-sdk-bridge.ts:115-118 | only the first chunk can be blank or begin with white space |
| Splitting.WordsStayWhole | src/channels/chat-sdk-bridge.ts:111-116 | a text that has a space or newline in every `limit` characters is cut between words only |
| EnvFile.SetEnv | setup/set-env.ts:36-57 | refuses a key that is not upper snake case, else computes the new content and whether the key existed |
| EnvFile.ReadEnvKey | setup/environment.ts:26-35 | the scan returns the trimmed value of the first line that reads as the key |
| EnvLookup.AssignsIsReading | setup/environment.ts:27-33 | a line reads as a key with a value exactly when it is white space, the key up to the first `=`, which does not begin with white space or `#`, and text that trims to the value |
| EnvLookup.FindsExactlyWhen | setup/environment.ts:26-36 | the lookup finds a value exactly when it is not empty and the first line that assigns the key anything assigns that value |
| EnvFile.MatchIsInLine | setup/set-env.ts:48-50 | in any file the multi-line pattern matches somewhere exactly when it matches in one of the lines |
| EnvFile.ReplacedLines | setup/set-env.ts:52-53 | in any file a replace changes the first line with a match, as if that were the whole file, and no other; for values without replacement patterns |
| EnvFile.AppendedLines | setup/set-env.ts:54-57 | in any file an append adds one line after all others, as given |
| EnvLookup.LookupAfterUpsertExactlyWhen | setup/set-env.ts:48-57 | in any file, the lookup finds every value an upsert stores as given, trimmed, if and only if the first line that the upsert replaces or the lookup reads as the key is one it replaces, alone on its line but for white space, or there is no such line |
| EnvLookup.OthersKeptExactlyWhen | setup/environment.ts:26-35 | in any file, no upsert changes what is found for another key if and only if the line it replaces is not the one the lookup reads for that key |
| EnvLookup.PlainFiles | setup/set-env.ts:48-57 | in a file with LF or CRLF line ends every other key keeps its value, and what is stored is found if and only if the first line that reads as the key is not indented |
| EnvPatterns.ExpandsToItselfExactlyWhen | setup/set-env.ts:53 | a value survives the replacement if and only if it holds none of `$$`, `$&`, `` $` `` and `$'` |
| EnvPatterns.StoredAsGivenExactlyWhen | setup/set-env.ts:52-53 | so a replace stores the line as given if and only if the value holds none of them |
| EnvPatterns.UpsertTwiceExactlyWhen | setup/set-env.ts:48-57 | a second identical upsert changes nothing if and only if, after an append, the value holds none of them, and after a replace, it uses no `$&`, no `` $` `` behind other text and no `$'` before other text |
| EnvLookup.IndentedLineShadows | setup/environment.ts:26-33 | an indented line keeps being found whatever is upserted |
| EnvLookup.CarriageReturnSpoils | setup/environment.ts:26-33 | behind a lone carriage return a line is replaced but not found, and the value of the key before it changes |
| EnvPatterns.DollarIsExpanded | setup/set-env.ts:53 | a value with `$&` is stored with the old line in its place |

## Left out

- Redis, SQLite, Docker, the channel libraries and the file system: they appear as success or failure of a step and as maps and sets.
- Rate limiter: `resetUser`, `getUserStats`, and a transaction that returns null, which the code treats as a count of 0.
- Delivery: the poll timers, what `deliverMessage` does with a message, typing indicators, and a restart of the process.
- Containers: mounts, arguments, the name of the container and the way a container is stopped; only map updates and exit handlers are modelled.
- WhatsApp: the cache of sent messages, group sync and reconnecting.
- Host sweep: recurrence of completed tasks, and sessions without an outbound database.
- Routing: regular expressions and gate verdicts are inputs; auto-creation of groups and wirings, the subscription call to the adapter, the message row itself and its address.
- Pairing: waiting for a pairing, a file that does not parse, and bot usernames with characters other than letters, digits and underscores.
- State adapter: subscriptions, `getList`, and JSON encoding of values.
- Manifest: icon drawing, the manifest itself and the zip file; the modelled PNG reader undoes filter type 0 only, the one the writer uses.
- Status blocks: standard error, whose text joins the transcript, the line feed `onLine`, a field named `__proto__`, and numbers and booleans as field values, which arrive here as text.
- Splitting: a hard cut may separate the two halves of a surrogate pair; texts with surrogates are not representable.
- Command line, setup flows, formatting for each platform, circuit breaker and briefing timing: they would add easy members only.
- EnvFile.ReplacedLines: for values without replacement patterns, which `EnvPatterns.StoredAsGivenExactlyWhen` shows to be the values a replace stores as given; the same holds for the results of `EnvLookup.dfy`.
- StatusBlocks.ParseUndoesPrint: for step names and fields a line can carry; `StatusBlocks.FieldSurvives` shows that no other field survives.
- Splitting.SplitForLimit: negative limits, with which the loop never ends; a limit of 0 only for texts with nothing visible, for which alone it ends.
- Png.ReadUndoesEncode: the reader accepts the images the writer can produce, not every PNG file.
