# miniWebChat: a verified model

A Dafny 4.11 model of the miniWebChat server and of the parts of its client that
speak the same protocol, with proofs of the properties the program relies on. The
model follows a message from the client's bytes to frames, to thread-pool tasks,
to responses, to the bytes another client reads. `dafny verify dfyconfig.toml`
checks everything. Nothing was executed.

## How it is organised

**Thread pool** (`ThreadPoolSteps`, `ThreadPoolInvariant`, `ThreadPoolTheorems`,
`ThreadPoolTermination`, `ThreadPoolPaths`, `ThreadPoolFate`, `ThreadPoolWitness`,
`ThreadPools`). An interleaved step system. One step is one atomic access of the
program: a load, store or compare-exchange of one atomic, one critical section, or
one join. Workers, the manager, the shutdown caller and any number of submitters each
have a place in the code; a run takes their steps in any order. `size_t` registers
wrap at 2^64, `compare_exchange_weak` may fail spuriously, and timeouts may strike at
any time.
`ThreadPools` is the same pool as an object: `worker_loop`, `manager_loop`,
`shutdown` and the constructor as loops, with arbitrary steps of the other threads
before every access of shared state. A ghost field holds the run made so far; each
access is proved to be one step of it, each loop to have made an access of its own
thread for every round of the others' schedule, unless it had to wait in join, and
the theorems about runs thereby speak of the object.

**Blocking queue** (`CondVars`, `BlockingQueueModel`, `BlockingQueues`). A monitor
with parked and signalled threads, for any element type, and the class over it.

**Protocol** (`Text`, `Escaping`, `Scanner`, `Layout`, `Fields`, `Messages`,
`RoundTrips`, `Framing`). The five escapes, the two hand-written scanners as the
loops they are, `buildResponse`, `parseClientMessage`, framing, and the proof that
searching for a key by its first quoted occurrence still finds the right value:
`Layout` shows where a quoted key can occur in a message made of encoded literals,
`RoundTrips` draws the consequences for the server's and the client's printer.

**JSON** (`Json`, `Answers`). A reader written from RFC 8259 alone, for strings,
integers, truth values and objects, and what it finds in every response, in the
payloads of the chat service and in the client's requests.

**Connections** (`Reading`, `Output`, `Connections`, `Servers`, `ChatRules`,
`Client`, `EndToEnd`). The read handler as a function of what recv returns and as
the loop over an in-place buffer; the write side as a step system of concurrent
senders and the reactor; connections and the server's table of them as objects that
close, broadcast and answer; the client's receive loop; and the composition from
end to end.

**Connection pool** (`Lending`, `ConnectionPoolModel`, `ConnectionPools`). One
model for the MySQL and the Redis pool, which are the same algorithm
(`src/pool/MySQLConnectionPool.cpp` and `src/pool/RedisConnectionPool.cpp` differ
in names only): what the pool owns as a value, any number of threads acquiring,
moving and releasing, and the pool and its move-only handles as objects.

Conventions: a byte is a `char` below 256; foreign calls (recv, send, connect,
ping, database lookups, json.loads) are scripts, parameters or arbitrary outcomes;
a `hide` statement only shortens what the solver looks at in one proof, and
`{:induction false}` stands where an induction is written out or where Dafny's
automatic induction would get in the way.

## Where the program and its own comments or expectations differ

The code is modelled as it is. Each difference is shown by a concrete run or input,
and the exact condition is proved.

- `busy_threads_ <= live_threads_` (the comment at `include/pool/ThreadPool.hpp:33`)
  can fail, because a worker runs before it is counted:
  `ThreadPoolWitness.BusyCanExceedLive`; exactly when, `ThreadPoolTheorems.BusyVersusLive`.
- `live_threads_` can wrap below zero when workers leave before the manager has
  counted the last one: `ThreadPoolWitness.LiveCanWrap`; exactly when,
  `ThreadPoolTheorems.LiveWraps`.
- A task accepted after `running_` is cleared can be lost:
  `ThreadPoolWitness.ShutdownCanLoseLateTask`. Exactly when is told by the state at
  its acceptance (`ThreadPoolFate.FateOfQueued`). It is certain to run if and only if
  the queue is served: a worker is on its way back to its pop, or one is active and
  not leaving while fewer than `core_threads_` are leaving, or the manager's readings
  already call for a worker. It is certain to be lost if and only if the queue is
  deserted: every active worker is leaving and the manager cannot start one. In every
  other state both can still happen, by scheduling alone; such states are reachable
  (`ThreadPoolWitness.LateTaskUndecided`).
- `parseClientMessage` rejects a well-formed request whose request id is `data` or
  ends with a quote and `data`: `RoundTrips.LoginParsed` and `RoundTrips.ChatParsed`
  are if-and-only-if; the ids the client uses are safe (`RoundTrips.NumberedRequests`).
- With three or more string fields a response can be misread by the same scanner:
  `RoundTrips.ThirdFieldCanBeMisread`; which field is read, exactly,
  `RoundTrips.ResponseField`. No response of this server has more than two.
- A response whose strings hold a control character other than line feed, carriage
  return and tab is no JSON, since escapeJson leaves it as it is; all others are:
  `Json.ResponseIsJson`.
- A second `init` of a connection pool after a failed one can exceed
  max_connections: `ConnectionPoolModel.SecondInitExceeds`; exactly when,
  `ConnectionPoolModel.InitKeepsBound`.
- A sleeping acquirer can be left with nobody to wake it, after a failed connect
  (`ConnectionPoolModel.FailedGrowthStrands`) or because the release of a dead
  connection notifies nobody (`ConnectionPoolModel.DeadReleaseStrands`): exactly when
  every connection has been dropped (`ConnectionPoolModel.StrandedIffAllDropped`),
  and by exactly which steps, `ConnectionPoolModel.StrandingStep`.

## Model

| member | source | states |
|---|---|---|
| ThreadPoolTheorems.Drain | include/pool/ThreadPool.hpp:297-325 | In every interleaving, a task accepted while `running_` holds (indeed before any worker has left) has been executed exactly once when the winning `shutdown` has returned |
| ThreadPoolTheorems.LostIffQueued | include/pool/ThreadPool.hpp:297-325 | When the winning `shutdown` returns, the accepted tasks that never ran are exactly those still queued; `ThreadPoolFate` tells beforehand which these will be |
| ThreadPoolFate.ServedTaskRuns | include/pool/ThreadPool.hpp:165-206 | A task accepted at any moment, even after `running_` was cleared, has run exactly once when the winning `shutdown` returns, if the queue is served at that moment |
| ThreadPoolFate.DesertedTaskLost | include/pool/ThreadPool.hpp:174-206 | In a deserted pool, closed with every active worker leaving and none that the manager can start, a queued task stays queued for ever and never runs |
| ThreadPoolFate.FateOfQueued | include/pool/ThreadPool.hpp:165-265 | Of a queued task, in any state after construction: every return of `shutdown` that can follow has executed it exactly when the queue is served in that state, and some return that can follow has exactly when the queue is not deserted |
| ThreadPoolFate.RunningServes | include/pool/ThreadPool.hpp:192-203 | While `running_` holds the queue is always served, since retirement never takes the last core workers |
| ThreadPoolFate.ServedRuns | include/pool/ThreadPool.hpp:165-206 | Whatever path leads from a served state to the return, a task queued in that state has been executed exactly once on it |
| ThreadPoolFate.Rescue | include/pool/ThreadPool.hpp:192-265 | From every state that is not deserted some path leads to a served one with the task still queued |
| ThreadPoolFate.Desert | include/pool/ThreadPool.hpp:174-265 | From every state that is not served some path leads to a deserted one with the task still queued: every worker retires and the round of the manager ends without a new one |
| ThreadPoolWitness.LateTaskUndecided | include/pool/ThreadPool.hpp:174-203 | One reachable state of a closed pool with a late task queued is neither served nor deserted, and leads, by different orders of steps, to a served and to a deserted one |
| ThreadPoolWitness.ShutdownCanLoseLateTask | include/pool/ThreadPool.hpp:302-309 | A reachable state in which `shutdown` has returned and a task accepted after `running_` was cleared was never executed |
| ThreadPoolTheorems.AtMostOnce | include/pool/ThreadPool.hpp:165-172 | In every reachable state no task has run twice, and a task that has run was accepted and is not queued |
| ThreadPoolTheorems.ReturnedState | include/pool/ThreadPool.hpp:311-324 | When the winning `shutdown` has returned every thread is over, some worker saw the closed pool empty, and exactly the popped tasks were executed |
| ThreadPoolTermination.ShutdownReturns | include/pool/ThreadPool.hpp:117-325 | From the winning exchange on, every endless run in which steps are enabled, no exchange fails spuriously and each submit call that comes is refused reaches the return of the winning `shutdown`, however many are refused, as long as they are not the only steps |
| ThreadPoolTermination.ShutdownReturnsAmidSubmits | include/pool/ThreadPool.hpp:117-325 | So does every such run in which submit calls are still accepted at first, if `accepting_tasks_` is off from some moment on |
| ThreadPoolTermination.StepCloser | include/pool/ThreadPool.hpp:153-206 | From the winning exchange on, every step of a worker, the manager, the closer or a pending push strictly lowers a lexicographic measure, in any order of steps |
| ThreadPoolTheorems.ShutdownNeverStuck | include/pool/ThreadPool.hpp:311-324 | No deadlock on the way down: until the winning `shutdown` has returned some worker, the manager or the closer can move, and not by a spurious failure |
| ThreadPoolPaths.CanReturn | include/pool/ThreadPool.hpp:297-325 | From every state of a closed pool some path leads to the return of `shutdown` |
| ThreadPoolTheorems.PoolSizeBounds | include/pool/ThreadPool.hpp:192-203 | Active workers, counted or not, never exceed `max_threads_`; after construction and while `running_` holds, `live_threads_` is between `core_threads_` and `max_threads_` and counts exactly the active workers already added |
| ThreadPoolTheorems.LiveWraps | include/pool/ThreadPool.hpp:149-150 | `live_threads_` differs from the number of counted workers exactly when every worker has gone and one that was started is not yet added: then the size_t register has wrapped |
| ThreadPoolWitness.LiveCanWrap | include/pool/ThreadPool.hpp:149-205 | A reachable state in which the register has wrapped: both workers left and were subtracted before the manager added the second |
| ThreadPoolTheorems.Conservation | include/pool/ThreadPool.hpp:208-228 | accepted = queued + popped but not yet counted + `completed_tasks_`, and tasks leave the queue in the order they were accepted, none twice |
| ThreadPoolTheorems.BusyVersusLive | include/pool/ThreadPool.hpp:33 | The exact form of the comment `busy_threads_ <= live_threads_`: it fails if and only if a worker is started but uncounted and every active worker is busy |
| ThreadPoolWitness.BusyCanExceedLive | include/pool/ThreadPool.hpp:33 | A reachable state in which `busy_threads_` exceeds `live_threads_` |
| ThreadPoolTheorems.StartsAsWarranted | include/pool/ThreadPool.hpp:240-265 | In no run does the manager start a worker that three earlier readings of the queue, `live_threads_` and `busy_threads_`, made in that order, did not call for: none with tasks no more than workers and some worker idle, or no task; one with every worker busy; else two at most |
| ThreadPoolTheorems.JoinedExactlyOnce | include/pool/ThreadPool.hpp:311-324 | No thread is joined twice or before it is over; when `shutdown` has returned each thread ever started has been joined exactly once and no handle is left |
| ThreadPoolTheorems.ReapsOnlyRetired | include/pool/ThreadPool.hpp:269-293 | The manager joins only threads that won their retirement exchange and have published their id, whose handles are still there, so the join waits on no lock |
| ThreadPoolTheorems.WorkersLockExclusive | include/pool/ThreadPool.hpp:311-318 | When `shutdown` joins the workers the manager has stopped, so `workers_mtx_` is never contended by the two |
| ThreadPoolTheorems.History | include/pool/ThreadPool.hpp:137-140 | Accepted tasks stay accepted, in order, from any state of a run to any later one, and the first worker to leave fixes how many had been accepted |
| ThreadPoolInvariant.RunInv | include/pool/ThreadPool.hpp:143-206 | The five-part invariant (control, sizes, tasks, counters, handles) holds in every state of every run |
| ThreadPoolInvariant.InvStep | include/pool/ThreadPool.hpp:143-206 | Every enabled step of every thread keeps the invariant |
| ThreadPoolInvariant.SizeStep | include/pool/ThreadPool.hpp:192-203 | Every step keeps the size part: retirement never takes the active count below the core, and growth from a stale read never takes it above the maximum |
| ThreadPoolInvariant.TaskStep | include/pool/ThreadPool.hpp:165-172 | Every step keeps each accepted task in exactly one place: queued, held by one worker, or executed |
| ThreadPoolInvariant.CounterStep | include/pool/ThreadPool.hpp:208-228 | Every step keeps `busy_threads_` and `completed_tasks_` equal to what they count |
| ThreadPoolInvariant.HandleStep | include/pool/ThreadPool.hpp:269-293 | Every step keeps the handles, the published ids and the joined threads a partition of the threads started |
| ThreadPools.ThreadPool.Make | include/pool/ThreadPool.hpp:63-72 | Construction is refused exactly when the core size is 0 or the maximum is below it; otherwise the loop creates exactly the core workers, whatever these do meanwhile, and the object is in a state some run has reached |
| ThreadPools.ThreadPool.constructor | include/pool/ThreadPool.hpp:45-61 | Before the creation loop the pool is in the initial state of the step system, at the start of a run |
| ThreadPools.ThreadPool.CreateWorker | include/pool/ThreadPool.hpp:143-151 | The thread is started first and counted next, with the other threads at work in between: exactly one thread is added and the creation count goes on by one |
| ThreadPools.ThreadPool.WorkerLoop | include/pool/ThreadPool.hpp:153-206 | The run goes on with at least one access of the worker's own for every round of the others' schedule, each the step of its place, and ends only with the worker over or the schedule used up |
| ThreadPools.ThreadPool.LeaveOrStay | include/pool/ThreadPool.hpp:173-203 | A worker that popped nothing ends up gone, back at its pop, or out of schedule, an access for every round |
| ThreadPools.ThreadPool.ShouldLeave | include/pool/ThreadPool.hpp:174-175 | The short-circuit test: leave exactly if `running_` was read off and the queue then found empty |
| ThreadPools.ThreadPool.ExecuteTask | include/pool/ThreadPool.hpp:208-228 | The task has been executed, exactly once and not before the call, and the worker is back at its pop, under any interference |
| ThreadPools.ThreadPool.Retire | include/pool/ThreadPool.hpp:192-203 | The compare-exchange loop makes an access in every round and ends with the worker retired and gone, back in its loop, or out of schedule |
| ThreadPools.ThreadPool.Publish | include/pool/ThreadPool.hpp:199-201 | A worker that won the exchange publishes its id and is over |
| ThreadPools.ThreadPool.ManagerLoop | include/pool/ThreadPool.hpp:230-295 | The run goes on with an access of the manager's own for every round, unless it waited in join for a thread that was not over, and ends only with the manager stopped or the schedule used up |
| ThreadPools.ThreadPool.Expand | include/pool/ThreadPool.hpp:240-265 | Exactly as many threads are started as three readings, made one after the other within the call, call for, in the sense of `GrowCount` |
| ThreadPools.ThreadPool.Decide | include/pool/ThreadPool.hpp:240-259 | The three readings with the other threads at work in between, and the number they call for in the sense of `GrowCount` |
| ThreadPools.ThreadPool.ReapAll | include/pool/ThreadPool.hpp:281-293 | All ids taken over are joined, in order, each had a handle and none has one afterwards; it ends early only out of schedule while waiting for a thread that is not over |
| ThreadPools.ThreadPool.ReapExited | include/pool/ThreadPool.hpp:269-293 | A round of the manager ends with the published ids reaped, or waiting in join with the schedule used up |
| ThreadPools.ThreadPool.Shutdown | include/pool/ThreadPool.hpp:297-325 | Only the call that finds `running_` on does anything; when it has finished, every thread is over, no handle is left and every task accepted before the call has been executed exactly once; it ends early only out of schedule while it waits in join; any other call changes nothing |
| ThreadPools.ThreadPool.AwaitManager | include/pool/ThreadPool.hpp:311-313 | join() on the manager returns only once the manager has stopped |
| ThreadPools.ThreadPool.JoinAll | include/pool/ThreadPool.hpp:317-323 | The workers behind all handles are joined, in the order of the handles, and the handles cleared; it ends early only out of schedule while waiting for a worker that is not over |
| ThreadPools.ThreadPool.Others | include/pool/ThreadPool.hpp:153-325 | One round of the schedule: exactly the steps of it that other threads can take, in its order; the run goes on with them, without a step of the thread's own, and leaves what the thread relies on: its place, and the handles while it joins |
| ThreadPools.ThreadPool.Move | include/pool/ThreadPool.hpp:117-325 | Any enabled step of any thread, run through its access below, is that step of the run |
| ThreadPools.ThreadPool.PopTask | include/pool/ThreadPool.hpp:167 | pop_for gives the front task and removes it, or nothing when the queue is empty; the worker's place follows |
| ThreadPools.ThreadPool.RunTask | include/pool/ThreadPool.hpp:215 | The task runs once, between the two updates of `busy_threads_` |
| ThreadPools.ThreadPool.LoadRunning | include/pool/ThreadPool.hpp:174 | `running_` as read decides between the emptiness test and the size test |
| ThreadPools.ThreadPool.TestEmpty | include/pool/ThreadPool.hpp:174-175 | A worker of a closed pool leaves exactly when it finds the queue empty |
| ThreadPools.ThreadPool.TestLive | include/pool/ThreadPool.hpp:179-180 | A worker stays exactly when `live_threads_` as read is at most the core |
| ThreadPools.ThreadPool.CompareExchange | include/pool/ThreadPool.hpp:197 | The exchange wins exactly when the register still holds the value read and it does not fail spuriously; a failure reloads the value |
| ThreadPools.ThreadPool.PublishExit | include/pool/ThreadPool.hpp:199-200 | A retired worker's id is added to the published ones |
| ThreadPools.ThreadPool.SubtractSelf | include/pool/ThreadPool.hpp:205 | A worker that leaves a closed pool subtracts itself last |
| ThreadPools.ThreadPool.StartThread | include/pool/ThreadPool.hpp:149 | A new thread starts at its first pop_for, and its handle is stored |
| ThreadPools.ThreadPool.CountThread | include/pool/ThreadPool.hpp:150 | `live_threads_` grows by one after the thread was started |
| ThreadPools.ThreadPool.GrowCount | include/pool/ThreadPool.hpp:244-261 | None at the maximum, and none while tasks are no more than workers and a worker is idle or no task waits; exactly one when every worker is busy; with more tasks than workers one or two, two whenever both the tasks and the maximum leave room |
| ThreadPools.ThreadPool.TakeExited | include/pool/ThreadPool.hpp:269-277 | The manager takes over all published ids and leaves the list empty |
| ThreadPools.ThreadPool.Handle | include/pool/ThreadPool.hpp:283-285 | find_if by id: the first handle with that id, or the number of handles when there is none |
| ThreadPools.ThreadPool.JoinAndErase | include/pool/ThreadPool.hpp:283-292 | The handle with that id is joined and leaves the vector; an unknown id changes nothing |
| ThreadPools.ThreadPool.ReapOne | include/pool/ThreadPool.hpp:281-293 | Reaping one id is the step of the system |
| ThreadPools.ThreadPool.SubmitTest | include/pool/ThreadPool.hpp:124-125 | submit is refused exactly when `accepting_tasks_` is off |
| ThreadPools.ThreadPool.SubmitPush | include/pool/ThreadPool.hpp:137-138 | Refusal exactly when the queue is shut; otherwise the task is at its back |
| BlockingQueueModel.NoLostWakeup | include/common/BlockingQueue.hpp:39-118 | In every reachable state with no shutdown notification pending: if a consumer sleeps unsignalled, at most as many items are queued as consumers are signalled, and likewise free slots for producers; barging, timeouts and spurious wakeups included |
| BlockingQueueModel.NoDeadlock | include/common/BlockingQueue.hpp:39-118 | When no thread is signalled, sleeping consumers face an empty queue and sleeping producers a full one, so the two never sleep side by side |
| BlockingQueueModel.FirstInFirstOut | include/common/BlockingQueue.hpp:33-34 | Over every run, what has come out is a prefix of what went in, the queue is the rest, and a bounded queue never exceeds its capacity |
| BlockingQueueModel.ShutDrains | include/common/BlockingQueue.hpp:56-71 | A queue that is shut is still handed out: in every run the pops after the flag was set take what was queued then, item by item in order, nothing enters, and only with all of it taken does a pop find the queue empty |
| BlockingQueueModel.PopTakesFront | include/common/BlockingQueue.hpp:56-108 | In the step system a pop of any kind takes the front item whenever there is one, shut or not |
| BlockingQueueModel.PopOutcome | include/common/BlockingQueue.hpp:64-65 | A pop yields the front item if there is one, and is refused exactly on a shut and empty queue |
| BlockingQueueModel.PushDecides | include/common/BlockingQueue.hpp:23-37 | A push adds its item at the back exactly when the queue is open with room |
| BlockingQueueModel.StepKeeps | include/common/BlockingQueue.hpp:23-118 | Every critical section, notification and spontaneous wakeup keeps the monitor invariant |
| BlockingQueues.BlockingQueue.Push | include/common/BlockingQueue.hpp:23-37 | One critical section of push: refused exactly when the queue is shut, waiting exactly when it is open and full, otherwise the item goes to the back; the monitor invariant is kept |
| BlockingQueues.BlockingQueue.Pop | include/common/BlockingQueue.hpp:56-92 | One critical section of pop or pop_for: the front item whenever there is one, shut or not; refused exactly when the queue is shut and empty, timed out or waiting exactly when it is open and empty; the monitor invariant is kept |
| BlockingQueues.BlockingQueue.TryPop | include/common/BlockingQueue.hpp:95-107 | The front item whenever there is one, refused exactly when there is none |
| BlockingQueues.BlockingQueue.Take | include/common/BlockingQueue.hpp:67-71 | The front item comes out and one producer is notified |
| CondVars.Notify | include/common/BlockingQueue.hpp:34 | notify_one wakes one sleeper, any one, if there is one |
| BlockingQueues.BlockingQueue.Shutdown | include/common/BlockingQueue.hpp:110-118 | shutdown closes the queue, keeps its items and leaves no thread asleep; it is the next three steps in a row |
| BlockingQueues.BlockingQueue.SetShutdown | include/common/BlockingQueue.hpp:112-115 | The flag, set under the mutex, is the monitor's step and keeps its invariant |
| BlockingQueues.BlockingQueue.NotifyAllNotEmpty | include/common/BlockingQueue.hpp:116 | Waking all consumers outside the mutex is the monitor's step and keeps its invariant |
| BlockingQueues.BlockingQueue.NotifyAllNotFull | include/common/BlockingQueue.hpp:117 | Waking all producers outside the mutex is the monitor's step and keeps its invariant |
| Escaping.UnescapeEscape | include/common/Protocol.hpp:64-99 | `unescapeJson(escapeJson(s)) == s` for every byte string s |
| Escaping.EscapeInjective | include/common/Protocol.hpp:64-78 | Two strings with the same encoding are equal |
| Escaping.EscapeCodes | include/common/Protocol.hpp:64-78 | The five characters escaped and what they are escaped to, by their codes; every other stands for itself |
| Escaping.UnescapeCodes | include/common/Protocol.hpp:80-99 | What a backslash and the next character decode to, by their codes; a backslash before any other character, or at the end, is kept |
| Escaping.EscapeSize | include/common/Protocol.hpp:64-78 | An encoding is at least as long as the string and at most twice as long |
| Escaping.EscapedQuote | include/common/Protocol.hpp:70 | Every quote inside an encoding follows a backslash |
| Escaping.EscapeConcat | include/common/Protocol.hpp:67-76 | Encoding distributes over concatenation |
| Escaping.EscapeJson | include/common/Protocol.hpp:64-78 | The accumulating loop computes the encoding |
| Escaping.UnescapeJson | include/common/Protocol.hpp:80-99 | The index loop, which skips the second byte of the five escapes and keeps any other backslash, computes the decoding |
| Text.Find | include/common/Protocol.hpp:185 | The position returned is the first match at or after the start, and none is reported only when there is none |
| Text.SkipSpacesLoop | include/common/Protocol.hpp:177-181 | The loop passes the space and the codes 9 to 13, and stops at the first other character |
| Scanner.LocateValue | include/common/Protocol.hpp:184-190 | The value of a key starts at the first non-space after the first colon after the first occurrence of the quoted key |
| Scanner.ValueStartIs | include/common/Protocol.hpp:184-190 | For every text and key: the value starts after the first occurrence of the quoted key, the next colon and the spaces that follow, and nowhere else |
| Scanner.CloseQuote | include/common/Protocol.hpp:195-212 | The closing quote is the first quote from the start that does not follow an odd run of backslashes, and none is reported only when there is none |
| Scanner.ReadLiteral | include/common/Protocol.hpp:193-213 | The flag loop, which rebuilds the raw text backslash by backslash, decodes the text up to exactly that closing quote, and fails exactly when there is none |
| Scanner.ReadObject | include/common/Protocol.hpp:225-254 | The depth-counting loop returns the shortest balanced text from the brace on; `depth` is the brace balance of what was read and stays between 0 and the bytes read |
| Scanner.ExtractStringValue | include/common/Protocol.hpp:183-214 | The imperative scanner is the value located, read as a literal, for every source and key |
| Scanner.StringIsFirstLiteral | include/common/Protocol.hpp:183-213 | For every text and key: a string is returned exactly if a quote stands where the value starts and an unescaped one follows, and it is the decoded text between them |
| Scanner.OddRun | include/common/Protocol.hpp:195-204 | A character is escaped exactly after an odd run of backslashes |
| Scanner.ExtractObjectValue | include/common/Protocol.hpp:216-255 | The imperative scanner is the value located, read as an object, for every source and key |
| Scanner.ObjectIsShortestBalanced | include/common/Protocol.hpp:216-255 | What the object scanner returns is the shortest text from the located brace whose braces outside string literals balance; it returns nothing exactly when no brace is located or no such text exists |
| Scanner.BalanceIsBraces | include/common/Protocol.hpp:231-252 | The flag-driven brace count equals the count over the text with its string literals skipped whole |
| Scanner.BalanceRange | include/common/Protocol.hpp:226 | A brace balance is bounded by the text's length, so `depth` fits an int for any frame of at most 64 KiB |
| Scanner.LiteralMode | include/common/Protocol.hpp:231-239 | Inside a literal the escape flag is set exactly after an odd run of backslashes, and the depth does not move |
| Layout.HitsIffLooksLike | include/common/Protocol.hpp:184-186 | A key's token can end at the closing quote of an encoded value exactly when the value is the key or ends with a quote and the key |
| Layout.CellOccurrence | include/common/Protocol.hpp:185 | An occurrence of a key's token past some point ends no earlier than the next literal's closing quote, and there only if that value looks like the key |
| Layout.FirstHit | include/common/Protocol.hpp:184-187 | Searching a message for a key finds exactly the first literal, key or value, that looks like it |
| Layout.NotInLiteral | include/common/Protocol.hpp:185 | An occurrence of a key's token never ends inside an encoded literal, because every quote in there follows a backslash |
| Layout.AtClosingQuote | include/common/Protocol.hpp:185 | It ends at the literal's closing quote exactly when the value looks like the key |
| Layout.LiteralCloses | include/common/Protocol.hpp:193-213 | Started after an opening quote on an encoded string, a quote and anything else, the scan stops at exactly that quote, with the encoding as the raw text |
| Layout.LiteralRead | include/common/Protocol.hpp:193-213 | Reading a value that an encoder wrote gives back that value, whatever follows it |
| Layout.NeutralLiteral | include/common/Protocol.hpp:231-244 | An encoded literal never moves the object scanner's depth and leaves it outside any literal |
| Layout.ObjectRead | include/common/Protocol.hpp:216-255 | Reading an object whose inside is neutral gives back exactly its text |
| Fields.FieldRead | include/common/Protocol.hpp:183-214 | Searching an object of string fields for a key returns, whatever the values are, the value of the field after the first value that looks like the key, or the field's own value when none does |
| RoundTrips.FieldOfObject | include/common/Protocol.hpp:183-214 | The same for the text of any object whose first members are string fields |
| RoundTrips.FirstTwoFields | include/common/Protocol.hpp:183-214 | The first two string fields of an object read back exactly, whatever they contain, even the next key's name |
| RoundTrips.ThirdFieldCanBeMisread | include/common/Protocol.hpp:184-187 | With three string fields a value equal to a later key makes the scanner return the wrong field |
| RoundTrips.DataAfterHeader | include/common/Protocol.hpp:216-255 | In the server's layout the data object is found exactly unless the type value looks like the key |
| RoundTrips.DataAfterNumber | include/common/Protocol.hpp:216-255 | In the client's layout, with a number before the data, it is found exactly unless the type or the request id looks like the key |
| RoundTrips.ResponseHeader | include/common/Protocol.hpp:108-109 | The type and the request id of any response read back exactly |
| RoundTrips.ResponseData | include/common/Protocol.hpp:110-128 | The data object of a response reads back as a whole exactly when the type does not look like `data` |
| RoundTrips.ResponseField | include/common/Protocol.hpp:116-119 | Which string field of a response a key reads back, exactly |
| RoundTrips.RelayLossless | include/common/Server.hpp:410-412 | For every username, text and user id, the broadcast payload gives back exactly that username and text |
| RoundTrips.EnvelopeRead | client/cli_client.py:83-91 | Type, request id and data of a client envelope, read back by the scanners, exactly |
| RoundTrips.LoginParsed | client/cli_client.py:83-91 | Parsing inverts the client's printer on every login request, whatever username and password contain; it fails if and only if the request id looks like `data` |
| RoundTrips.ChatParsed | client/cli_client.py:107-114 | Parsing inverts the client's printer on every chat request, whatever the text contains; it fails if and only if the request id looks like `data` |
| RoundTrips.NumberedRequests | client/cli_client.py:83-117 | With the decimal request ids the client uses, every login and chat request parses to exactly its fields |
| Messages.BuildResponse | include/common/Protocol.hpp:101-130 | The three loops with their shared comma flag print the object of the given members |
| Json.ResponseIsJson | include/common/Protocol.hpp:101-130 | Read by RFC 8259, every response is an object of its type, request id and data, and the data has exactly the members asked for, in order, with their strings, integers and truth values; unless a string holds a control character escapeJson leaves alone, and then it is no JSON |
| Json.NumberRead | include/common/Protocol.hpp:122 | A number printed reads back as that number, sign and all |
| Json.CharsRead | include/common/Protocol.hpp:64-78 | An encoded string reads back by RFC 8259 exactly if it has no other control character |
| Json.EnvelopeIsJson | client/cli_client.py:12-16 | A client request is a JSON object of its four members |
| Messages.AddMember | include/common/Protocol.hpp:111-115 | The comma flag puts a comma before every member but the first |
| Messages.AddStrings | include/common/Protocol.hpp:116-119 | The loop over string fields prints them, keys and values encoded, in order |
| Messages.AddInts | include/common/Protocol.hpp:120-123 | The loop over integer fields continues the list, in order |
| Messages.AddBools | include/common/Protocol.hpp:124-127 | The loop over boolean fields continues the list, in order |
| Messages.ParseClientMessage | include/common/Protocol.hpp:132-174 | For every text: accepted exactly as a login whose username and password are read or a chat line whose text is; reported as unsupported exactly if a type and a data object are read and the type is neither; and otherwise as the parse function says |
| Messages.ParseSucceeds | include/common/Protocol.hpp:132-174 | Over what the scanners read of any text: when the parse succeeds, and that it then carries the type, the request id and exactly those fields |
| Messages.ParseFails | include/common/Protocol.hpp:134-173 | In each other case the error for the first field that is not read, or for the type |
| Connections.FrameMessage | include/common/Protocol.hpp:26-34 | Four bytes with the length modulo 2^32, the most significant first, then the message |
| Framing.HeaderLength | include/common/Protocol.hpp:29-31 | The length read back from a header is the length written, for every 32-bit length |
| Framing.FrameRoundTrip | include/common/Protocol.hpp:26-52 | A framed message followed by anything is extracted whole with the rest intact, if and only if it has between 1 and 65536 bytes |
| Framing.ExtractedExactly | include/common/Protocol.hpp:36-52 | A buffer of bytes gives up a message exactly when it starts with that message in a frame and the message has from 1 to 65536 bytes |
| Framing.InvalidExactly | include/common/Protocol.hpp:54-62 | A length is bad exactly if four bytes are there and name 0 or more than 65536, the most significant first |
| Framing.DecodeAppend | include/common/Protocol.hpp:36-52 | Decoding may stop anywhere in a stream and resume with what was left: same frames, same rest |
| Framing.DecodeFrames | include/common/Protocol.hpp:26-52 | A stream of framed messages of legal size decodes to exactly those messages with nothing left |
| Framing.DecodePrefix | include/common/Protocol.hpp:36-62 | Cut such a stream after any byte: exactly the messages whose frames are complete are decoded, and what is left blocks nothing |
| Framing.RestBounded | include/common/Protocol.hpp:43-48 | What decoding leaves is shorter than the largest frame or starts with a bad length |
| Framing.InvalidBlocks | include/common/Protocol.hpp:54-62 | Once a bad length stands first, nothing more is ever decoded |
| Reading.ReaderState | include/common/Server.hpp:107-144 | After events that do not close, the frames submitted are those of the whole stream; the buffer is the undecoded rest, or a bad length has closed the connection |
| Reading.HandleReadDecides | include/common/Server.hpp:107-144 | By the place of the first recv outcome that stops the loop: when the event closes the connection, which bytes it appends and which frames it submits |
| Reading.EventDecides | include/common/Server.hpp:112-130 | What the recv loop appends and whether it ends in end of file or failure, by that place |
| Reading.BatchingIndependent | include/common/Server.hpp:107-144 | However the stream is cut into read events, the same frames are submitted in the same order as a simple decoder takes from the whole stream |
| Reading.ClosingEventDiscards | include/common/Server.hpp:118-129 | An event that ends in end of file or an error submits none of its bytes, nor do later events |
| Reading.BufferBounded | include/common/Server.hpp:132-143 | The read buffer of an open connection stays below one maximal frame or starts with a bad length, and then the next event closes it and submits nothing |
| Reading.MessagesArrive | include/common/Server.hpp:137-143 | Framed messages of legal size, cut in any way, are submitted one by one in order with nothing left over |
| Connections.Connection.TryExtractFrame | include/common/Protocol.hpp:36-52 | The in-place extraction takes one frame off the front of the buffer, or leaves it alone |
| Connections.Connection.ReceiveAll | include/common/Server.hpp:111-130 | By the place of the first recv outcome that stops the loop: the bytes before it are appended, and the event closes exactly if that outcome is end of file or failure |
| Connections.Connection.SubmitFrames | include/common/Server.hpp:137-143 | The extraction loop submits every complete frame in order and leaves the rest |
| Connections.Connection.Transmit | include/common/Server.hpp:151-165 | Bytes taken and left are the buffer; by the place of the first send outcome that stops the loop: all is sent exactly if the socket was ready for as much before, and otherwise the loop breaks exactly at a failure or a send of nothing |
| Connections.Transmission | include/common/Server.hpp:151-165 | The loop drains exactly when every byte was taken |
| Connections.TransmissionDecides | include/common/Server.hpp:150-165 | How many bytes are sent and how the loop ends, by the place of the first outcome that stops it |
| Connections.Connection.SendPacket | include/common/Connection.hpp:59-70 | A packet is appended and write interest armed exactly when the connection is open |
| Connections.Connection.SendJson | include/common/Connection.hpp:55-57 | A message is sent as one frame exactly when the connection is open |
| Output.NoStrandedOutput | include/common/Connection.hpp:59-70 | With any number of concurrent senders and reactor writes, buffered output on an open connection has write interest armed or a sender between its append and its mod_fd |
| Output.OutputStream | include/common/Server.hpp:150-165 | Bytes the socket took followed by the buffer are always the concatenation of the packets appended, under any partial sends |
| Output.StepKeeps | include/common/Server.hpp:146-169 | Every atomic step of a sender or of handleWrite keeps both facts |
| Client.RecvExact | client/cli_client.py:19-26 | recv_exact returns exactly the next n bytes however recv splits them, or nothing when the stream ends first |
| Client.RecvMessage | client/cli_client.py:29-37 | recv_message returns the next framed body and leaves the rest; nothing for a cut frame or an empty body |
| Client.EmptyFrame | client/cli_client.py:29-37 | An empty body ends the loop like a closed connection |
| Client.FrameRead | client/cli_client.py:29-37 | A framed message of 1 to 2^32 - 1 bytes is read whole, and what follows is left |
| Client.CutFrame | client/cli_client.py:29-37 | A frame cut anywhere yields nothing |
| Client.RecvLoop | client/cli_client.py:43-55 | The receive loop shows the bodies that arrive, up to the first that json.loads rejects or turns into None |
| Client.AllShown | client/cli_client.py:43-55 | When every body loads, all that arrive are shown |
| Client.ShownUpTo | client/cli_client.py:43-55 | The bodies shown are exactly those before the first that does not load |
| Client.ReadsWholeFrames | client/cli_client.py:29-37 | Cut a stream of framed messages after any byte: the client reads exactly the messages whose frames are complete |
| Client.ClientReadsPrefix | include/common/Server.hpp:150-165 | In every run of the write side, from whatever part of the output has been delivered, the client reads a prefix of the enqueued messages, and all of them once everything is delivered |
| ChatRules.ChatRelayed | include/common/Server.hpp:237-249 | A client's chat request is broadcast word for word exactly when its user is logged in and the text has 1 to 1024 bytes; otherwise it is refused with the code and message of the first rule it breaks |
| ChatRules.LoginDecided | include/common/Server.hpp:205-235 | A client's login request succeeds exactly when both fields fit, the user is stored with that password and is not online; the client then reads the stored name and everybody else a notice with it; otherwise it is refused, with 3004 for a field that does not fit, 1001 for an unknown user or wrong password, 1002 for one already online |
| ChatRules.OtherTypeAnswered | include/common/Server.hpp:199-202 | A client message of any other type is answered with one error, 3003 with its request id, unless its type or id sends the search for the data astray; then 3004 |
| ChatRules.UnsupportedAnswered | include/common/Server.hpp:199-202 | Any message read with another type is answered with error 3003 and its request id, and nothing is broadcast |
| ChatRules.MissingAnswered | include/common/Server.hpp:199-202 | Any message that misses a field is answered with error 3004 and the field |
| ChatRules.LoginFaults | include/common/Server.hpp:260-281 | Which of the four login rules is reported, by the sizes of the fields |
| Answers.LoginAnswered | include/common/Server.hpp:205-235 | From a client's login request to the JSON answer it reads: success, code 0, the stored name and id exactly for fields that fit, a known user and password and a user not online, with a notice to the others; otherwise success false with the code of its reason |
| Answers.SuccessRead | include/common/Server.hpp:393-408 | A successful login answer reads as success true, code 0, the name and the id of the user |
| Answers.RefusalRead | include/common/Server.hpp:393-408 | A refusal reads as success false with its code and reason |
| Answers.ErrorRead | include/common/Server.hpp:385-391 | An error reads as its request id, code and reason |
| Answers.NoticeRead | include/common/Server.hpp:420-428 | A notice reads as its text with code 2001 |
| Answers.BroadcastRead | include/common/Server.hpp:410-418 | A chat broadcast reads as the sender, the text and the sender's id |
| ChatRules.AnswersRead | include/common/Protocol.hpp:101-130 | The text of every login answer and notice, read back by the key scanner, is the text put in, whatever it contains |
| ChatRules.ChatPayloadFits | include/common/Server.hpp:410-412 | For every text validateChatRequest accepts, every username of at most 128 bytes and every 32-bit user id, the broadcast payload is non-empty and at most 2500 bytes |
| ChatRules.BroadcastArrives | include/common/Server.hpp:410-412 | That payload, framed and followed by anything, is extracted unchanged with the rest intact, and gives back username and text |
| ChatRules.ReactionSendable | include/common/Server.hpp:192-250 | Every payload the server sends because of a frame, errors that repeat a long request id included, has from 1 to a million bytes, so no frame length wraps and the client can read each |
| ChatRules.ResponseWithin | include/common/Protocol.hpp:101-130 | A size bound for every response of up to five short fields, from the bound on its strings |
| ChatRules.DigitsSize | include/common/Protocol.hpp:122 | A number below 10^k has at most k decimal digits |
| EndToEnd.RequestsUnderstood | include/common/Server.hpp:107-144 | Whatever part of a client's login and numbered chat lines has arrived, cut into read events in any way, one task is submitted per complete request, in order, and parses to exactly what was meant; the connection stays open, with nothing buffered once all has arrived |
| EndToEnd.RequestsExecuted | include/common/Server.hpp:137-143 | Let each submitted frame have its task, pushed in submission order, in any run of the thread pool, each while it runs or the queue is served: when the winning `shutdown` has returned, a frame's task has been executed exactly once if its push succeeded and never otherwise, tasks left the queue in the order of the requests, and each one's frame parses to what the client meant |
| EndToEnd.PoppedInOrder | include/pool/ThreadPool.hpp:137-140 | Tasks leave the queue in the order of their successful pushes, in every run |
| EndToEnd.LinesShown | include/common/Server.hpp:410-418 | Whatever packets a connection was given, login answers, notices and errors among them, and whatever part of its output has arrived, the client reads the first so many, in order; each broadcast among these shows its sender's name and text unchanged; all are read once everything has arrived |
| Servers.Server.SnapshotConnections | include/common/Server.hpp:558-567 | A snapshot holds every connection once |
| Servers.Server.Broadcast | include/common/Server.hpp:413-417 | Every connection that is open and logged in gains exactly one frame, the payload's, and write interest; no other output changes |
| Servers.Server.OnConnectionClosed | include/common/Server.hpp:252-258 | Closing a logged-in connection tells every other user so, and ends its session |
| Servers.Server.CloseAndCleanup | include/common/Server.hpp:173-189 | Closing happens once: the connection leaves the table, its descriptor is invalidated, the others are told exactly if it was logged in, and its own buffer is not touched; on a closed connection nothing happens |
| Servers.Server.HandleRead | include/common/Server.hpp:107-144 | One readable event has exactly the effect of the read-side model; it closes an open connection exactly if the loop stops at end of file or failure or the buffer then starts with a bad length; then a logged-in connection is out of the table and every other user is told |
| Servers.Server.HandleWrite | include/common/Server.hpp:146-169 | One writable event: bytes sent plus bytes left are the buffer; the connection closes exactly if the loop stops, with bytes left, at a failure or a send of nothing; interest is dropped only with an empty buffer |
| Servers.Server.OnMessage | include/common/Server.hpp:192-250 | A message of an open connection gets exactly the reaction of the rules: an answer to it alone, a login answered and then announced to every user, or a broadcast; one of an unsupported type gets error 3003 and nobody else gets anything; a closed connection's message does nothing |
| Servers.Server.OnLogin | include/common/Server.hpp:205-235 | The branches of a login request: each refusal in turn, or the session set up, answered and announced |
| Servers.Server.OnChat | include/common/Server.hpp:237-249 | The branches of a chat request: each refusal in turn, or the text to every user |
| Servers.Server.RemoveConnection | include/common/Server.hpp:551-554 | Exactly the entry of that descriptor leaves the table |
| ConnectionPoolModel.ExclusiveLending | src/pool/MySQLConnectionPool.cpp:88-186 | In every reachable state each connection of the pool is in exactly one place, idle, held by one handle, or dropped, and no other connection is anywhere, however often init is called; they number at most max_connections if each init found room, as one init on a new pool does |
| ConnectionPoolModel.DroppedForGood | src/pool/MySQLConnectionPool.cpp:144-154 | A dropped connection is never idle or held again, and each one shrinks for good what the pool can lend |
| ConnectionPoolModel.NoLostWakeup | src/pool/MySQLConnectionPool.cpp:123-186 | While an acquirer sleeps unsignalled, every idle connection is matched by a signalled acquirer, however many dead ones each discards |
| ConnectionPoolModel.ExhaustedForever | src/pool/MySQLConnectionPool.cpp:157-168 | Once the pool owns all it may and every connection has been dropped, every later acquire waits |
| ConnectionPoolModel.StrandedIffAllDropped | src/pool/MySQLConnectionPool.cpp:123-186 | In every reachable state in which acquirers sleep and none is signalled, no handle is out whose release could wake them exactly when every connection the pool owns has been dropped |
| ConnectionPoolModel.StrandingStep | src/pool/MySQLConnectionPool.cpp:157-185 | Which steps strand them, exactly: an acquire that finds no live connection and opens none while no handle is out and nobody else is awake; or the last handle out giving back a dead connection |
| ConnectionPoolModel.StrandedStays | src/pool/MySQLConnectionPool.cpp:157-185 | They stay stranded through every step but a spurious wakeup and a newcomer's successful connect |
| ConnectionPoolModel.DeadReleaseStrands | src/pool/MySQLConnectionPool.cpp:181-185 | A reachable state in which an acquirer is stranded although no connect ever failed: the release of a dead connection notifies nobody |
| ConnectionPoolModel.FailedGrowthStrands | src/pool/MySQLConnectionPool.cpp:157-168 | A reachable state in which an acquirer sleeps, with the pool below its maximum, nobody signalled and no handle out |
| ConnectionPoolModel.InitKeepsBound | src/pool/MySQLConnectionPool.cpp:106-117 | In every reachable state within the bound, a further init keeps it, whatever connect does, exactly when the connections kept leave room for min_connections more |
| ConnectionPoolModel.SizeBound | src/pool/MySQLConnectionPool.cpp:106-164 | Over every run, max_connections is never exceeded as long as each init finds that room |
| ConnectionPoolModel.SecondInitExceeds | src/pool/MySQLConnectionPool.cpp:106-117 | A reachable state with three connections and max_connections 2: an init that failed after one, and a second that succeeded |
| ConnectionPoolModel.PoolKeeps | src/pool/MySQLConnectionPool.cpp:18-186 | Every init, acquire, release, move and assignment keeps lending exclusive |
| ConnectionPoolModel.WaitersKeep | src/pool/MySQLConnectionPool.cpp:168-185 | Every step keeps the wakeup invariant |
| Lending.Accounting | src/pool/MySQLConnectionPool.cpp:144-183 | owned = idle + held + dropped |
| Lending.AssignKeeps | src/pool/MySQLConnectionPool.cpp:25-37 | Move assignment, self-assignment included, keeps lending exclusive |
| Lending.AssignMoves | src/pool/MySQLConnectionPool.cpp:25-37 | What a move assignment to another handle leaves in every part of the pool |
| Lending.InitKeeps | src/pool/MySQLConnectionPool.cpp:106-117 | init keeps lending exclusive, whichever connects succeed |
| Lending.LendFrontKeeps | src/pool/MySQLConnectionPool.cpp:141-151 | Lending the front idle connection keeps lending exclusive |
| Lending.LendNewKeeps | src/pool/MySQLConnectionPool.cpp:162-164 | Lending a new connection keeps lending exclusive |
| Lending.MoveKeeps | src/pool/MySQLConnectionPool.cpp:18-23 | Move construction keeps lending exclusive and the held connections the same |
| Lending.GiveBackKeeps | src/pool/MySQLConnectionPool.cpp:172-186 | Giving a connection back, alive or dead, keeps lending exclusive |
| ConnectionPools.ConnectionPool.Start | src/pool/MySQLConnectionPool.cpp:88-121 | init: nothing on an initialized pool or bad sizes; otherwise it opens connections until the first failure and keeps them, in order; it succeeds exactly on an initialized pool or with good sizes and min_connections opened |
| ConnectionPools.ConnectionPool.TryFront | src/pool/MySQLConnectionPool.cpp:139-155 | The first idle connection is pinged once and asked once to reconnect exactly if it does not answer; it is lent if it is then connected, and dropped otherwise |
| ConnectionPools.ConnectionPool.FromIdle | src/pool/MySQLConnectionPool.cpp:132-155 | The loop over the idle connections drops every dead one before the first live one and lends that; the calls made are, for each popped in order, one ping and one reconnect exactly if it did not answer |
| ConnectionPools.ConnectionPool.TryGrow | src/pool/MySQLConnectionPool.cpp:157-166 | A connection is opened exactly when the pool is below its maximum, and is lent exactly when it opens |
| ConnectionPools.ConnectionPool.Acquire | src/pool/MySQLConnectionPool.cpp:123-170 | acquire up to its wait or return: the two errors, the connection lent, or the wait, each with its exact effect on the idle and held connections, on the waiters, on the attempts to connect and on the pings and reconnects of those popped; the wakeup invariant is kept |
| ConnectionPools.ConnectionPool.ReleaseConnection | src/pool/MySQLConnectionPool.cpp:172-186 | A live connection goes to the back of the idle queue and one waiter is notified; a dead one, or any while shutting down, does neither; the wakeup invariant is kept |
| ConnectionPools.PooledConnection.Release | src/pool/MySQLConnectionPool.cpp:59-67 | A handle gives its connection back once, with the notification that goes with it, and is left empty |
| ConnectionPools.PooledConnection.Transfer | src/pool/MySQLConnectionPool.cpp:31-34 | Both moves: the holder changes, the other handle is emptied, the pool stays exclusive |
| ConnectionPools.PooledConnection.TakeFrom | src/pool/MySQLConnectionPool.cpp:31-34 | The connection of another handle is taken over, and a pool given back to before is not affected |
| ConnectionPools.PooledConnection.Move | src/pool/MySQLConnectionPool.cpp:18-23 | The new handle holds what the other held, which is left empty |
| ConnectionPools.PooledConnection.Assign | src/pool/MySQLConnectionPool.cpp:25-37 | The old connection goes back to its own pool, the other handle's is taken over, and self-assignment changes nothing; also across two pools |

## Left out

- Sockets, epoll, fcntl, signals, environment parsing, and failures of `mod_fd`: foreign calls; write interest is one boolean per connection, and arming it on an open connection succeeds.
- libmysqlclient, hiredis, `sqlEscape` and key formatting: connect, ping and reconnect are oracles; a database lookup is a parameter of `Servers.Server.OnMessage`.
- One login per user, and agreement with the online bit in Redis: the program checks and sets it without a lock, so no invariant holds; `cacheChatRecord` and `setUserOnlineStatus` have no effect in the model.
- Ordering between broadcasts of different workers, and between the effects of one connection's messages: only the order of submission is fixed by the program.
- Real time: idle timeout, manager interval and deadlines are arbitrary choices, so every result holds for any timing.
- The throwing paths of thread creation, and a submit that throws inside `handleRead` because the pool is shutting down.
- Tasks that call `shutdown` themselves; each is assumed to end.
- The wrap-around of `completed_tasks_` at 2^64, and the reuse of a thread id after its thread was joined (worker ids never repeat in the model).
- `\uXXXX` escapes and raw control characters: `unescapeJson` leaves the first alone and `escapeJson` passes most of the second through; client strings are encoded by the five escapes, which is what json.dumps writes for printable ASCII, newline, carriage return and tab. The reader in `Json` leaves out arrays, null, fractions, exponents and \u escapes, which neither side writes; which bodies json.loads accepts stays a parameter of the client's loop.
- `Server::stop`, `handleAccept` and the reactor's dispatch: thin loops over operations that are modelled.
- The pools' destructors; `shuttingDown` stays as the flag they set, with its branches.
- ThreadPoolTermination.ShutdownReturns: it assumes no endless series of spurious compare-exchange failures, that submit calls are not the only steps taken, and that they stop being accepted at some time, which the closer's step after the winning exchange brings about; each can otherwise delay the return for ever.
- ThreadPools.ThreadPool.WorkerLoop: the loop is followed as far as the finite schedule of the other threads goes, as are `ManagerLoop` and `Shutdown`; that shutdown ends is `ThreadPoolTermination.ShutdownReturns`.
- ThreadPools.ThreadPool.constructor: the thread creation that follows is in `Make`.
- BlockingQueues.BlockingQueue.Shutdown: runs its three steps in one call; `BlockingQueueModel` lets others come between them.
- BlockingQueues.BlockingQueue.Pop: one call is one critical section; the wait between two sections is the caller calling again once woken.
- ConnectionPools.ConnectionPool.Acquire: one call is one critical section, and reads the shutting-down flag once, because the mutex is held throughout; the wait is the caller calling again.
- Servers.Server.Broadcast: runs to its end with no other handler in between; concurrent appends to one connection are the subject of `Output`.
- Servers.Server.OnMessage: the password kept by a logged-in connection is not stored, since nothing reads it.
- Client.RecvLoop: which bodies json.loads accepts is a parameter; it returns the bodies, and printing them is left out.
