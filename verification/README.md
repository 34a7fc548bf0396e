# Verified models of the lithium core components

A Dafny project that models eight pieces of the lithium server and proves what they guarantee over
all inputs, all runs and all interleavings. `dafny verify dfyconfig.toml` checks everything.

| component | files |
|---|---|
| edit distance and suggestion cache (`src/debug/suggestion.cpp`) | `EditDistance.dfy`, `Transposition.dfy`, `SuggestionCache.dfy`, `SuggestionStale.dfy`, `SuggestionEngine.dfy` |
| nesting check (`src/debug/check.cpp`) | `NestingDepth.dfy` |
| rate limiter (`src/server/rate_limiter.cpp`) | `Clock.dfy`, `TokenBucket.dfy`, `PrunedLog.dfy`, `SlidingLog.dfy`, `RateLimiter.dfy` |
| IPC framing and executor (`python/executor/isolated_executor.py`) | `IpcFraming.dfy`, `ExecutorProtocol.dfy`, `ExecutorSession.dfy` |
| interpreter pool (`src/script/interpreter_pool.cpp`) | `PoolTasks.dfy`, `PoolGuards.dfy`, `InterpreterPool.dfy` |
| event loop (`src/server/eventloop.hpp`, `src/server/eventloop.cpp`) | `EventQueue.dfy`, `EventWorkers.dfy`, `EventLoop.dfy` |
| task manager (`src/server/task_manager.cpp`) | `TaskLifecycle.dfy`, `TaskRegistry.dfy`, `TaskManager.dfy` |
| shared | `Common.dfy`, `PriorityOrder.dfy`, `MultisetSum.dfy` |

A component that changes its fields is a class whose methods are proved against a state machine on
values (`Step`, `Run`), and the theorems are about all runs of that machine. Concurrent components
are machines whose events are the stretches of code that run under one lock, or single statements
where the code takes no lock (the task closure, the two halves of a guard's release). Clock readings,
fresh identifiers, the outcome of a task or a script, and how much a system call moves are parameters
or left open.

## Where the code does something else than it says

The models follow the code.

- `useTransposition` ("Use transposition in edit distance", `src/debug/suggestion.hpp:44`) has no
  effect: line 588 looks one row back instead of two (`EditDistance.TranspositionDominated`).
- The cache's "access time" is the time of insertion; a hit does not renew it. Changing the data set,
  weights, filters or the number of suggestions leaves stale answers behind
  (`SuggestionStale.ChangeIsHarmlessIff`, with a run for each kind of change).
- `get_request_count` erases what it does not count, so a later, wider window counts too few
  (`PrunedLog.CountExactIff`).
- The user limiter reads the clock before it takes the lock, so a minute can hold more allowed calls
  than the limit (`SlidingLog.OutOfOrderExceeds`); `SlidingLog.AnswerRightIff` says exactly when an answer is right.
- A read that times out inside a frame drops the bytes read so far
  (`IpcFraming.TimeoutHarmlessIff`, `IpcFraming.TimeoutInsideFrame`).
- `send_json` counts a message before it serialises it. A report that JSON refuses leaves a gap in the
  sequence ids; a result that JSON refuses yields an ERROR instead of a RESULT and ends the run
  (`ExecutorProtocol.NumberedIff`, `ExecutorProtocol.RefusedResultEndsRun`).
- `shutdown(false)` is documented as not waiting for pending tasks
  (`src/script/interpreter_pool.hpp:239`), but workers leave only when the queue is empty, so it
  executes them all and cancels none (`PoolTasks.DrainedWhenJoined`).
- Without `USE_ASIO`, `post` and `postDelayed` fill a queue that no worker reads
  (`EventWorkers.PostedTasksNeverRun`). In one pass, a task at the head that is not due yet is put
  back and taken again, and holds up everything behind it (`EventLoop.LeaderBlocksIff`).
- `failTask` is overwritten before the runner starts and between the closing test and the write after it
  (`TaskLifecycle.FailStaysIff`), a task that `cancelTask` marks is counted as cancelled twice
  (`TaskLifecycle.CountedTwiceIff`), and a `cancelTask` that read Pending just before
  the closure wrote Running can turn Failed into Cancelled after the end
  (`TaskLifecycle.LateCancelOverwritesFailed`).

## Model

| member | source | states |
|---|---|---|
| EditDistance.CalculateEditDistance | src/debug/suggestion.cpp:552-596 | for both settings of the transposition option the two-row loop returns the length of a shortest insert/delete/replace script from `s1` to `s2`: such a script exists and none is shorter |
| EditDistance.DistanceIsMinimum | src/debug/suggestion.cpp:552-596 | a number is the computed distance if and only if some script of that length transforms `a` into `b` and none is shorter |
| EditDistance.DistanceIsMetric | src/debug/suggestion.cpp:552-596 | zero exactly on equal strings, symmetric, triangle inequality, between the difference of the lengths and the longer length |
| EditDistance.ShortestScript | src/debug/suggestion.cpp:574-583 | from the table's choices a script of exactly the computed length can be built |
| EditDistance.NoShorterScript | src/debug/suggestion.cpp:574-583 | every script that transforms `a` into `b` has at least the computed length |
| EditDistance.CellStep | src/debug/suggestion.cpp:579-583 | each table entry is the least of the deletion, insertion and substitution candidates |
| EditDistance.TranspositionDominated | src/debug/suggestion.cpp:585-589 | whenever the transposition test succeeds, its candidate (row i-1, column j-2) is not below the insertion candidate, so it never lowers an entry |
| EditDistance.AdjacentSwapCostsTwo | src/debug/suggestion.cpp:585-589 | two different neighbouring characters swapped, anywhere in any string, cost two |
| Transposition.AlignmentVersusDistance | src/debug/suggestion.cpp:585-589 | the distance with real transpositions (row i-2) is never larger than the computed one, and equal when no adjacent swap occurs between the strings |
| Transposition.SwapsPayIff | src/debug/suggestion.cpp:585-589 | it is smaller if and only if some swap, with whatever swaps come before it and plain edits after it, is cheaper than plain edits alone |
| Transposition.SwapPromisedOneCostsTwo | src/debug/suggestion.cpp:585-589 | two different neighbours swapped, anywhere in any string: one edit with real transpositions, two in the code, with the option or without |
| NestingDepth.CheckNestingDepth | src/debug/check.cpp:171-209 | an error is appended if and only if openers minus closers of some substring exceed the limit; it carries the maximum over all substrings and the line and column of the first character at which that maximum is reached |
| NestingDepth.CounterStep | src/debug/check.cpp:188-200 | the counter clamped at zero is the maximum of the net openings over the substrings that end here |
| NestingDepth.DeepestIsUnique | src/debug/check.cpp:203-208 | depth, line and column of the report are determined by the text |
| NestingDepth.NetIs | src/debug/check.cpp:190-200 | the surplus counts `(`, `[` and `{` against `)`, `]` and `}`, all kinds alike |
| NestingDepth.NewlinesAre | src/debug/check.cpp:182-187 | the line counts the line feeds before the place |
| TokenBucket.AdmissionBound | src/server/rate_limiter.cpp:15-68 | over any run, with intervals changing at any moment, at most the tokens at the start plus one per shortest interval elapsed since the last refill are admitted |
| TokenBucket.RunKeepsValid | src/server/rate_limiter.cpp:15-68 | tokens stay within 0 and the maximum and the last refill time never goes back, over every run |
| TokenBucket.TokensConserved | src/server/rate_limiter.cpp:15-68 | tokens at the start plus all credit equal admitted requests plus credit thrown away by the cap plus tokens left |
| TokenBucket.NothingLostIff | src/server/rate_limiter.cpp:15-68 | over any run admitted requests and tokens left equal the tokens at the start and all credit if and only if every refill had room for its whole credit |
| TokenBucket.AdmissionLowerBound | src/server/rate_limiter.cpp:15-68 | with a steady interval and that room, a run admits, or still has at its end, more than one new token for every two intervals between its first and its last refill |
| TokenBucket.CapOnlyWhenFull | src/server/rate_limiter.cpp:49-52 | a refill takes no token away, and throws credit away only if it leaves the bucket full |
| TokenBucket.RefillAmounts | src/server/rate_limiter.cpp:40-61 | before a whole interval has passed nothing changes; after it one token for each whole interval, up to the maximum, and the rest of an interval is lost |
| Clock.TruncDivIff | src/server/rate_limiter.cpp:42-44 | a duration cast to a coarser unit is rounded toward zero, also when it is negative |
| TokenBucket.StepPotential | src/server/rate_limiter.cpp:27-58 | an admission is paid for by tokens or by time that can no longer bring credit |
| TokenBucket.RefillBetweenHalfAndFull | src/server/rate_limiter.cpp:40-61 | the credit of one refill is worth at most the elapsed time, more than half of it and less than one interval less than it |
| TokenBucket.RunBetweenHalfAndFull | src/server/rate_limiter.cpp:40-61 | the same for all the refills of a run with a steady interval |
| TokenBucket.DeniedExactlyWhenEarly | src/server/rate_limiter.cpp:15-61 | with room for at least one token, a request is denied if and only if the bucket is empty and less than one interval has passed since the last refill |
| PrunedLog.EraseExpired | src/server/rate_limiter.cpp:153-177 | the in-place erase keeps exactly the timestamps that are not expired, in order |
| PrunedLog.UnexpiredAreYoung | src/server/rate_limiter.cpp:117-124 | exactly the timestamps younger than the window stay, each as often as it was there |
| PrunedLog.PruneTwice | src/server/rate_limiter.cpp:117-124 | pruning a pruned log later gives what pruning the full log would give |
| SlidingLog.DequeIsRecent | src/server/rate_limiter.cpp:143-164 | with a clock that does not go back the deque always equals the attempts, allowed or not, that are younger than the window |
| SlidingLog.AllowedIffWindowFits | src/server/rate_limiter.cpp:143-151 | with instants in order, as the IP limiter ensures, a call is allowed if and only if the window that it ends holds at most its limit of attempts |
| SlidingLog.WindowExactIff | src/server/rate_limiter.cpp:85-98 | in whatever order the clock was read, the deque never holds more calls than the window that ends with the last call, and exactly as many if and only if no call of that window was overtaken: no reading in between was a whole unit later than it |
| SlidingLog.AnswerRightIff | src/server/rate_limiter.cpp:85-110 | the answer is the right one for every limit if and only if no call of the window was overtaken; a wrong answer is always a permission |
| SlidingLog.AllowedMeansShorterFits | src/server/rate_limiter.cpp:85-110 | an allowed call's window fits when it is shortened by the largest step back of the clock |
| SlidingLog.WindowBound | src/server/rate_limiter.cpp:85-177 | any window shortened by the largest step back, wherever it starts, holds at most the limit of allowed calls; with instants in order any whole window |
| SlidingLog.OutOfOrderExceeds | src/server/rate_limiter.cpp:87-93 | with instants out of the order of the lock a whole window can hold more than the limit |
| SlidingLog.KeysAreIndependent | src/server/rate_limiter.cpp:70-98 | each address or user is limited as if it were alone |
| SlidingLog.TouchIs | src/server/rate_limiter.cpp:70-98 | a call adds its instant to the log of its key, takes out what is a unit old and nothing else, and leaves the other keys alone |
| PrunedLog.KeptAreSurvivors | src/server/rate_limiter.cpp:112-127 | in whatever order the clock was read, the log of admitted requests is the full log without those that some count after their recording erased |
| PrunedLog.CountExactIff | src/server/rate_limiter.cpp:112-127 | in whatever order the clock was read, `get_request_count` never counts too many, and is exact if and only if no earlier count erased a request that this one would still count |
| PrunedLog.ShrinkingWindowsAreExact | src/server/rate_limiter.cpp:112-127 | it is exact when the earlier counts had no later instant and no shorter window |
| PrunedLog.AdvancingWindowsAreExact | src/server/rate_limiter.cpp:112-127 | and, for windows of at least a second, when none of them began later than this one |
| PrunedLog.GrowingWindowUndercounts | src/server/rate_limiter.cpp:112-127 | a run with a growing window for which it is not exact |
| RateLimiter.RateLimiter.AllowRequest | src/server/rate_limiter.cpp:15-38 | allowed if and only if there is a token now, counting one for each whole interval since the last refill, up to the maximum; takes one and records the request, as in the state machine |
| RateLimiter.RateLimiter.CalculateTokenRefill | src/server/rate_limiter.cpp:40-61 | adds those tokens, restarts the interval only if there were any, and returns their number before the cap |
| RateLimiter.RateLimiter.GetRemainingTokens | src/server/rate_limiter.cpp:129-136 | returns the tokens that there are now, those included, and admits nothing |
| RateLimiter.RateLimiter.SetRefillRate | src/server/rate_limiter.cpp:63-68 | the interval changes and nothing else |
| RateLimiter.RateLimiter.GetRequestCount | src/server/rate_limiter.cpp:112-127 | erases exactly the requests that are not younger than the window, for good, and returns the number of the others |
| RateLimiter.RateLimiter.AllowRequestForIp | src/server/rate_limiter.cpp:70-83 | adds the call to the log of this address, takes out what is a second old, touches no other log; allowed if and only if at most five remain |
| RateLimiter.RateLimiter.AllowRequestWithLimit | src/server/rate_limiter.cpp:85-110 | adds the call to the log of this user, takes out what is a minute old, touches no other log; allowed if and only if at most the given number remain |
| RateLimiter.IpWindowBound | src/server/rate_limiter.cpp:143-164 | no one-second window of any address holds more than five allowed requests |
| IpcFraming.HeaderCodec | python/executor/isolated_executor.py:65-100 | a byte string is accepted and decoded to `h` if and only if it is long enough, starts with the encoding of `h` and `h` has the right magic number |
| IpcFraming.UnpackSerialized | python/executor/isolated_executor.py:65-86 | unpacking the sixteen bytes of a header gives the header back |
| IpcFraming.SerializeUnpacked | python/executor/isolated_executor.py:65-86 | packing what any sixteen bytes unpack to gives the bytes back |
| IpcFraming.HeaderLayout | python/executor/isolated_executor.py:65-86 | which of the sixteen bytes hold which field, most significant byte first; the magic number is `LITH` |
| IpcFraming.HeaderRefused | python/executor/isolated_executor.py:79-89 | a header is refused as too short or for its first four bytes, and for nothing else |
| IpcFraming.CreatedFrame | python/executor/isolated_executor.py:110-120 | a message made from a type, a payload and a number fits if and only if those fit one and four bytes; then its frame has version 1, no flags, these three and the payload's length |
| IpcFraming.ReceiveFrame | python/executor/isolated_executor.py:118-170 | a frame followed by anything is received as its message, leaving what follows |
| IpcFraming.ReceivedIsFrame | python/executor/isolated_executor.py:153-170 | whatever is received as a message was its frame at the front of the stream |
| IpcFraming.ReceiveIs | python/executor/isolated_executor.py:153-170 | what a call of `receive` makes of any bytes at hand: nothing, a refusal after sixteen bytes, or a message, by the length and the first ten bytes |
| IpcFraming.FramingRoundTrip | python/executor/isolated_executor.py:118-188 | the frames of any list of messages are received as exactly those messages, in order, with no byte left |
| IpcFraming.FramesInjective | python/executor/isolated_executor.py:118-120 | different message lists have different byte streams |
| IpcFraming.IpcChannel.Send | python/executor/isolated_executor.py:137-145 | however writes are cut short the pipe gains the whole frame, or a write has failed and the pipe has gained a proper part of it; a header out of range is refused before anything is written |
| IpcFraming.IpcChannel.SendJson | python/executor/isolated_executor.py:147-151 | numbers the message with the incremented sequence id and sends its frame; after a failed write the pipe has gained a proper part of it, and nothing when the header is out of range |
| IpcFraming.IpcChannel.ReadExact | python/executor/isolated_executor.py:172-188 | however reads are cut short, exactly the first bytes of that number; or nothing, at the end of the bytes or at a time-out, and fewer bytes than that are read and lost |
| IpcFraming.IpcChannel.ReceiveMessage | python/executor/isolated_executor.py:153-170 | unless a time-out comes first, result and remaining bytes are those of the stream function; after one some bytes are lost |
| IpcFraming.StepOnTrack | python/executor/isolated_executor.py:137-188 | every short write, short read and time-out between frames keeps: delivered messages are a prefix of those sent, and held, piped and unsent bytes are the frames of the rest |
| IpcFraming.DeliveredInOrder | python/executor/isolated_executor.py:137-188 | over any interleaving without a time-out inside a frame, the receiver has delivered a prefix of the sent messages, and all of them once no bytes are left |
| IpcFraming.NeverStuck | python/executor/isolated_executor.py:137-188 | as long as bytes are under way, one end can move some |
| IpcFraming.DeliveredIffPatient | python/executor/isolated_executor.py:137-188 | over every run: when no byte is under way any more, exactly the sent messages have been delivered if and only if no time-out fell inside a frame |
| IpcFraming.TimeoutHarmlessIff | python/executor/isolated_executor.py:178-181 | a single time-out keeps the streams aligned if and only if the receiver is not in the middle of a frame |
| IpcFraming.TimeoutInsideFrame | python/executor/isolated_executor.py:178-181 | a run to such a time-out, for every message with a payload, after which the receiver refuses what follows |
| ExecutorProtocol.RunSendsTranscript | python/executor/isolated_executor.py:147-151 | for any inbound sequence the executor makes the attempts of its transcript, numbers them 1, 2, 3 and so on, and sends those that can be serialised under their numbers |
| ExecutorProtocol.ServingIff | python/executor/isolated_executor.py:247-305 | the executor is still serving if and only if a HANDSHAKE without a signal came first and then no signal, nothing unreadable, no CANCEL, no SHUTDOWN and no EXECUTE that is refused or whose result cannot be sent; else the run has ended |
| ExecutorProtocol.EndedIsFinal | python/executor/isolated_executor.py:247-265 | nothing that arrives after the end changes anything |
| ExecutorProtocol.FirstAnswer | python/executor/isolated_executor.py:267-283 | the first message is HANDSHAKE_ACK for a HANDSHAKE and ERROR for anything else |
| ExecutorProtocol.ServingAnswers | python/executor/isolated_executor.py:285-427 | what is sent for each kind of inbound, by type codes and numbers: for a script its PROGRESS and LOG messages in order and then RESULT or, with a number skipped, ERROR |
| ExecutorProtocol.AllAnswered | python/executor/isolated_executor.py:247-367 | as long as the executor serves there are exactly as many RESULTs as EXECUTEs and heartbeat acknowledgements as HEARTBEATs, one HANDSHAKE_ACK and no other reply |
| ExecutorProtocol.IdsIncrease | python/executor/isolated_executor.py:147-151 | the sequence ids on the wire strictly increase over every run |
| ExecutorProtocol.NumberedIff | python/executor/isolated_executor.py:147-151 | they are 1, 2, 3 and so on if and only if no handled request made a report or had a result that cannot be serialised |
| ExecutorProtocol.RefusedReportSkipsNumber | python/executor/isolated_executor.py:405-427 | a script that reports something JSON refuses: HANDSHAKE_ACK 1 and RESULT 3 |
| ExecutorProtocol.RefusedResultEndsRun | python/executor/isolated_executor.py:367-367 | a result that JSON refuses: the reports, no RESULT, an ERROR with a skipped id, and the end of the run |
| ExecutorProtocol.RunStopsAtHandled | python/executor/isolated_executor.py:247-265 | the events of the run are those up to the one that ends it; the later ones change nothing |
| ExecutorProtocol.TranscriptShape | python/executor/isolated_executor.py:247-305 | a lone ERROR without a greeting; with one, HANDSHAKE_ACK comes first and nothing follows an ERROR, a CANCEL_ACK or a SHUTDOWN_ACK |
| ExecutorProtocol.RepliesMatchRequests | python/executor/isolated_executor.py:285-367 | over every served sequence there are exactly as many RESULT, ERROR and acknowledgement messages as there are events with that reply |
| ExecutorProtocol.RepliesCounted | python/executor/isolated_executor.py:285-367 | each handled inbound puts its reply on the wire once and no other: for EXECUTE a RESULT, or an ERROR when it is refused or its result cannot be sent |
| ExecutorProtocol.ServingTranscript | python/executor/isolated_executor.py:254-262 | the serving loop makes the attempts of the served transcript, numbered on from where it stood |
| ExecutorProtocol.IsolatedExecutor.HandleHandshake | python/executor/isolated_executor.py:267-283 | raises on anything but HANDSHAKE, else sends one HANDSHAKE_ACK |
| ExecutorProtocol.IsolatedExecutor.HandleExecute | python/executor/isolated_executor.py:303-367 | raises if and only if the request is refused or its result cannot be sent; the reports and the result are attempted in order |
| ExecutorProtocol.IsolatedExecutor.Send | python/executor/isolated_executor.py:147-151 | uses up a number in any case, sends or raises |
| ExecutorProtocol.IsolatedExecutor.HandleMessage | python/executor/isolated_executor.py:285-301 | makes the attempts of the state machine, raises exactly for an EXECUTE that is refused or whose result cannot be sent, and sets the cancel flag exactly for CANCEL and SHUTDOWN |
| ExecutorProtocol.IsolatedExecutor.Run | python/executor/isolated_executor.py:247-265 | the loop over the channel ends in the state of the state machine's run |
| ExecutorSession.SessionIsTranscript | python/executor/isolated_executor.py:137-305 | client, two pipes and executor together: when everything has been carried, the client has received exactly the framed transcript of its requests, with type, number and body, in order, of all of them or up to the one that ended the run |
| ExecutorSession.RepliesArriveInOrder | python/executor/isolated_executor.py:137-305 | in every interleaving with short writes and reads, what the client has received is a prefix of the replies to what has been handled, and that is a prefix of the requests |
| ExecutorSession.StepInv | python/executor/isolated_executor.py:137-305 | every write, read, time-out between frames and handled message keeps the invariant behind this |
| ExecutorSession.SessionNeverStuck | python/executor/isolated_executor.py:137-188 | as long as bytes are under way to an end that still reads, some step can happen |
| PriorityOrder.DrainsIffSorted | src/script/interpreter_pool.cpp:26-32 | repeatedly taking a top of the queue yields a list if and only if it is a permutation of the queue by falling priority and, among equal priorities, rising instant |
| PriorityOrder.TopExists | src/server/eventloop.cpp:17-22 | every non-empty queue has a top |
| PriorityOrder.TopIsFirst | src/server/eventloop.cpp:17-22 | a top is a task such that none has a higher priority and none of the same priority an earlier instant |
| PoolTasks.AcceptedTasksAccountedFor | src/script/interpreter_pool.cpp:256-313 | in every interleaving accepted tasks are exactly the queued, the running, the executed and the cancelled ones, each once; the counters agree and the queue keeps its limit |
| PoolTasks.AcceptedIff | src/script/interpreter_pool.cpp:256-313 | after any run a submitted task is queued, with its priority, its time and the next number, if and only if shutdown has not begun and the queue has room; else nothing changes, and which refusal it is |
| PoolTasks.CountersOverRun | src/script/interpreter_pool.cpp:511-540 | over any run successes, failures and total count the task bodies that returned, threw, and both |
| PoolTasks.TakesFirst | src/script/interpreter_pool.cpp:483-510 | a waiting worker may take a task if and only if none queued has a higher priority and none of the same priority was submitted earlier |
| PoolTasks.ShutdownCancelsNothing | src/script/interpreter_pool.cpp:151-184 | in a run without `cancelAllTasks` nothing is cancelled, and when the workers are joined every task ever accepted has been executed, whichever form of `shutdown` was called |
| PoolTasks.StepInv | src/script/interpreter_pool.cpp:477-544 | every submit, pop, finish, cancel, shutdown and worker exit keeps the conservation, the counters, the limit and: a stopped worker means shutdown and an empty queue |
| PoolTasks.NothingAcceptedAfterShutdown | src/script/interpreter_pool.cpp:274-280 | once shutdown has begun no task is ever accepted again |
| PoolTasks.DrainedWhenJoined | src/script/interpreter_pool.cpp:151-184 | when the workers are joined the queue is empty, every accepted task was executed or cancelled by `cancelAllTasks`, and `waitForTasks` makes no difference |
| PoolTasks.ShutdownIsBounded | src/script/interpreter_pool.cpp:477-500 | after shutdown has begun the workers take a bounded number of steps in all |
| PoolTasks.WorkerNeverStuck | src/script/interpreter_pool.cpp:484-500 | and every worker that has not stopped can take one |
| PoolGuards.BusyIndicesHeldOnce | src/script/interpreter_pool.cpp:36-81 | in every reachable state, also while guards are being released, available and busy indices partition 0..poolSize-1 and each busy index is held by exactly one guard that is not in the middle of `release` |
| PoolGuards.StepInv | src/script/interpreter_pool.cpp:36-81 | acquire, giving back, clearing, taking over and destruction keep this, in any interleaving |
| PoolGuards.ReleaseIsRun | src/script/interpreter_pool.cpp:74-81 | a whole `release` is giving back followed by clearing |
| PoolGuards.MoveAssignIsRun | src/script/interpreter_pool.cpp:49-60 | a whole move assignment is a release followed by taking over |
| PoolGuards.DestroyIsRun | src/script/interpreter_pool.cpp:62-64 | a whole destruction is a release followed by dropping the guard |
| PoolGuards.ReleaseFrees | src/script/interpreter_pool.cpp:74-81 | what the guard held becomes available, and no other guard loses or gains anything |
| PoolGuards.MoveAssignMoves | src/script/interpreter_pool.cpp:49-60 | the target holds what the source held, the source nothing, what the target held becomes available; self-assignment changes nothing |
| PoolGuards.DestroyFrees | src/script/interpreter_pool.cpp:62-64 | the guard is gone and what it held is available |
| PoolGuards.TwoValidGuards | src/script/interpreter_pool.cpp:77-79 | between the two halves of a release two guards can be valid with the same index |
| PoolGuards.NothingLeaks | src/script/interpreter_pool.cpp:74-81 | when no guard holds an index, all indices are available |
| InterpreterPool.InterpreterGuard.Release | src/script/interpreter_pool.cpp:74-81 | a busy index held by the guard becomes available and the guard is not valid; a guard that holds nothing changes nothing |
| InterpreterPool.InterpreterGuard.MoveConstruct | src/script/interpreter_pool.cpp:40-47 | the move-construct step: the new guard holds what the other held, the other nothing |
| InterpreterPool.InterpreterGuard.MoveAssign | src/script/interpreter_pool.cpp:49-60 | the move-assign step, releasing first what was held; nothing happens on self-assignment |
| InterpreterPool.InterpreterGuard.Destroy | src/script/interpreter_pool.cpp:62-64 | the guard is gone and what it held is available |
| InterpreterPool.InterpreterPool.constructor | src/script/interpreter_pool.cpp:98-142 | all indices available, queue empty, at least one worker waiting |
| InterpreterPool.InterpreterPool.Acquire | src/script/interpreter_pool.cpp:194-207 | up to the first wait: a fresh guard and an index moved to busy if and only if initialised, not shutting down and one is available; else the error of the code's tests, or a wait |
| InterpreterPool.InterpreterPool.AcquireAfterWait | src/script/interpreter_pool.cpp:207-228 | from one wait to the next: a time-out is final even when an index has become available, shutdown is tested again, initialisation is not |
| InterpreterPool.InterpreterPool.SubmitTask | src/script/interpreter_pool.cpp:256-313 | the submit step, refusing in the code's order: not initialised, shutting down, queue full |
| InterpreterPool.InterpreterPool.WorkerTakes | src/script/interpreter_pool.cpp:483-500 | a worker leaves its loop if and only if shutdown has begun and the queue is empty, else takes a task of the highest priority and, among those, of the earliest submission |
| InterpreterPool.InterpreterPool.WorkerFinishes | src/script/interpreter_pool.cpp:511-540 | the statistics step after a task |
| InterpreterPool.InterpreterPool.CancelAllTasks | src/script/interpreter_pool.cpp:391-401 | empties the queue, counts every task as cancelled and returns the number |
| InterpreterPool.InterpreterPool.BeginShutdown | src/script/interpreter_pool.cpp:152-158 | begins if and only if initialised and not begun before; a second call changes nothing |
| InterpreterPool.InterpreterPool.FinishShutdown | src/script/interpreter_pool.cpp:165-183 | finds the queue empty for either argument, so it cancels nothing |
| EventQueue.TakesIffTop | src/server/eventloop.hpp:328-338 | what `pop` may take from the three bands are exactly the tops of all tasks under the task order |
| EventQueue.BandsDrainAsOneQueue | src/server/eventloop.hpp:308-339 | the bands can be drained in exactly the orders in which one priority queue can |
| EventQueue.DrainIsSort | src/server/eventloop.hpp:308-339 | draining yields exactly the permutations of what was pushed by falling priority and, among equal priorities, rising execution time |
| EventQueue.TaskQueue.Push | src/server/eventloop.hpp:316-321 | adds the task to its band and to nothing else |
| EventQueue.TaskQueue.Pop | src/server/eventloop.hpp:328-338 | takes a task of the highest priority and, among those, the earliest time, over all bands; `None` exactly when all are empty |
| EventWorkers.TasksAreConserved | src/server/eventloop.cpp:109-145 | any number of workers, any interleaving: the tasks in the queue, with a worker or finished, and those taken out to be re-queued, are exactly the pushed ones and the re-queued ones; re-queued means 100 ms later; each call has led to one re-queueing or one finish or is about to |
| EventWorkers.StepCarried | src/server/eventloop.cpp:116-144 | no single event loses or duplicates a task |
| EventWorkers.TaskFollowed | src/server/eventloop.cpp:116-144 | a pushed task stays in one place; after k re-queueings its execution time is k periods later and nothing else has changed |
| EventWorkers.CalledOnlyWhenDue | src/server/eventloop.cpp:116-131 | whenever in a run of any number of workers a function is called, its task is active and its execution time has come |
| EventWorkers.KeptIffDue | src/server/eventloop.cpp:118-124 | a popped task is kept if and only if it is active and its execution time has come, else it goes back |
| EventWorkers.BatchEndsIff | src/server/eventloop.cpp:116-116 | a worker pops again if and only if it has popped fewer than sixteen tasks and there is one, and executes its batch otherwise |
| EventWorkers.WorkerNeverStuck | src/server/eventloop.cpp:109-145 | every worker that has not left can take a step |
| EventWorkers.NoneLeavesUnasked | src/server/eventloop.cpp:109-109 | in no run does a worker leave before `stop` was called |
| EventWorkers.PostedTasksNeverRun | src/server/eventloop.hpp:395-400 | posted tasks stay in the legacy queue and none is called, as long as nothing is pushed into the workers' queue |
| EventLoop.BatchDrains | src/server/eventloop.cpp:113-125 | whatever is due when, the tasks of a batch are the first of an order in which the whole queue may be drained, each was due at a reading, and the rest is the queue without them |
| EventLoop.LeaderBlocksIff | src/server/eventloop.cpp:116-124 | nothing at all is taken and the queue is unchanged if and only if the leading task is not due or not active at every reading used, so nothing behind it overtakes it |
| EventLoop.ReadyTasksFillTheBatch | src/server/eventloop.cpp:116-120 | when everything is ready, every task popped is taken |
| EventLoop.RenewedAre | src/server/eventloop.cpp:139-143 | what comes back are the periodic ones of the executed tasks, each as often as it was executed and 100 ms later |
| EventLoop.EventLoop.WorkerPass | src/server/eventloop.cpp:113-145 | one pass executes, in order, the beginning of an order in which the queue may be drained, and leaves the rest of the queue with exactly the periodic ones back in it, 100 ms later |
| EventLoop.EventLoop.TakeBatch | src/server/eventloop.cpp:113-125 | pops at most sixteen times, a top each time, keeps what is due and active at that reading and puts the other back; stops early only on an empty queue |
| EventLoop.EventLoop.Execute | src/server/eventloop.cpp:128-145 | exactly the periodic tasks come back, 100 ms later |
| EventLoop.EventLoop.PostDelayed | src/server/eventloop.hpp:426-443 | the task, with the next number and due after the delay, goes to the legacy queue, which no worker reads |
| EventLoop.EventLoop.AdjustTaskPriority | src/server/eventloop.cpp:205-230 | every task of that number gets the new priority; true if and only if there was one |
| EventLoop.AdjustOnlyThat | src/server/eventloop.cpp:209-222 | tasks with other numbers keep their priority and none appears or vanishes |
| EventLoop.AdjustAllOfThat | src/server/eventloop.cpp:209-222 | every task of that number has the new priority and keeps everything else |
| TaskLifecycle.EndedIsFinished | src/server/task_manager.cpp:62-96 | in every interleaving of closure, cancel and fail from the submission on, an ended closure leaves a finished status, with at most one completion and the bounds on the totals |
| TaskLifecycle.StepInv | src/server/task_manager.cpp:62-96 | every statement of the closure and of both requests keeps the invariant behind this |
| TaskLifecycle.FailuresCounted | src/server/task_manager.cpp:49-96 | in every interleaving the failed total is the number of `failTask` calls and, once the closure has written it, of tasks without a loop or with a runner that threw |
| TaskLifecycle.StatusIsFinalIff | src/server/task_manager.cpp:256-278 | after the end the status can change only to Failed through `failTask`, if and only if no `cancelTask` that read Pending has yet to write |
| TaskLifecycle.StatusIsFinal | src/server/task_manager.cpp:256-278 | in that case neither does any later request change the totals of completed and cancelled tasks |
| TaskLifecycle.StepAfterEnd | src/server/task_manager.cpp:256-278 | what a single step can change after the end |
| TaskLifecycle.LateCancelOverwritesFailed | src/server/task_manager.cpp:269-273 | without that condition the late write turns the Failed of a throwing runner into Cancelled |
| TaskLifecycle.LateCancelIsPossible | src/server/task_manager.cpp:269-273 | and such a state is reached from submission |
| TaskLifecycle.CancelBeforeStartTest | src/server/task_manager.cpp:63-70 | the flag set before the start test: the runner is never called, in any interleaving |
| TaskLifecycle.CancelBeforeFinishTest | src/server/task_manager.cpp:77-80 | the flag set before the finish test: the closure never marks the task Completed |
| TaskLifecycle.CountedTwiceIff | src/server/task_manager.cpp:62-96 | in every interleaving an ended task has been counted as cancelled twice if and only if `cancelTask` wrote Cancelled, there was a loop, the runner returned and the closing status test did not find Failed behind a set flag |
| TaskLifecycle.CountedTwiceWhenUndisturbed | src/server/task_manager.cpp:62-96 | without `failTask`, with a loop and a runner that returns: if and only if `cancelTask` wrote Cancelled |
| TaskLifecycle.CancelledBeforeStartCountsTwice | src/server/task_manager.cpp:63-70 | a task that `cancelTask` marked before the start test is counted twice whatever else happens |
| TaskLifecycle.AloneOutcome | src/server/task_manager.cpp:62-96 | a closure without interference ends Cancelled, Failed or Completed, with one count |
| TaskLifecycle.FailStaysIff | src/server/task_manager.cpp:320-339 | in every interleaving of what follows, `failTask` leaves an ended task Failed if and only if it comes in the runner, at its return, at the closing tests, before another Failed is written or after the end, and no `cancelTask` has read Pending and not yet written |
| TaskLifecycle.FailLastsIff | src/server/task_manager.cpp:320-339 | with the closure left alone afterwards, also before the start when the runner is reached and throws |
| TaskLifecycle.FailBeforeLookup | src/server/task_manager.cpp:49-62 | the same between submission and the lookup of the loop |
| TaskLifecycle.FailBeforeStartIsOverwritten | src/server/task_manager.cpp:72-72 | `failTask` before the start only adds a count: the closure runs and ends as if it had not happened |
| TaskRegistry.PagesConcatenate | src/server/task_manager.cpp:202-228 | consecutive pages put together are the newest-first list up to their total length |
| TaskRegistry.PagesAreComplete | src/server/task_manager.cpp:202-228 | enough pages list every task once, newest first |
| TaskRegistry.PageIs | src/server/task_manager.cpp:202-228 | a page has the entries from the newest on after `offset`, as many as there are up to `limit`, all when it is zero |
| TaskRegistry.KeepInOrder | src/server/task_manager.cpp:230-241 | what is kept stays in order |
| TaskRegistry.KeepListsOnce | src/server/task_manager.cpp:341-375 | removing tasks from map and list together leaves each remaining one listed once |
| TaskManager.TaskManager.SubmitTask | src/server/task_manager.cpp:27-58 | one fresh task at the end of the list, Pending and posted, or Failed and counted when there is no loop |
| TaskManager.TaskManager.StartClosure | src/server/task_manager.cpp:62-75 | Cancelled and counted if the flag is set, else Running; the same two steps of the state machine |
| TaskManager.TaskManager.FinishClosure | src/server/task_manager.cpp:76-95 | from any status the runner left: Failed when it threw, Cancelled when the flag is set and it is not Failed, Completed from Running or Pending, else unchanged, with the count; as the state machine runs it |
| TaskManager.TaskManager.CancelTask | src/server/task_manager.cpp:256-278 | false exactly for an unknown id; else the flag is set and a Pending task becomes Cancelled and is counted: the cancel steps of the state machine |
| TaskManager.TaskManager.FailTask | src/server/task_manager.cpp:320-339 | false exactly for an unknown id; else Failed and counted, whatever it was: the fail step |
| TaskManager.TaskManager.CleanupOldTasks | src/server/task_manager.cpp:341-375 | a task is gone afterwards if and only if it was listed, is completed, failed or cancelled, and was last changed at least one second more than the limit ago; returns their number, keeps the rest in order, drops ids without a task; map and list stay in agreement |
| TaskManager.StaleIffOld | src/server/task_manager.cpp:355-360 | the test is: completed, failed or cancelled, and last changed at least one second more than the limit ago |
| TaskManager.TaskManager.ListAllTasks | src/server/task_manager.cpp:202-228 | returns the page: skip, drop unknown ids, stop at the limit |
| TaskManager.TaskManager.ListTasksByStatus | src/server/task_manager.cpp:230-241 | the tasks of that status in submission order |
| SuggestionCache.KeysAreInjective | src/debug/suggestion.cpp:508-513 | equal cache keys come from equal inputs, match types and case flags, also when inputs contain colons |
| SuggestionCache.IndexHoldsFirsts | src/debug/suggestion.cpp:253-263 | the index holds for every folded key the first item with it, and nothing else |
| SuggestionCache.IndexKeys | src/debug/suggestion.cpp:253-263 | with case sensitivity the keys are the items, without it the items in lower case |
| SuggestionCache.LowerCaseIs | src/debug/suggestion.cpp:515-520 | lower case letter by letter, everything else as it is |
| SuggestionCache.AnswersAreFresh | src/debug/suggestion.cpp:27-84 | over any run that changes settings only while nothing is cached or in ways that cannot matter, every answer, hit or miss, is that of an engine set up from scratch with the last settings and case flag; an empty input is refused |
| SuggestionCache.ClearedThenChanged | src/debug/suggestion.cpp:280-284 | whatever happened before, settings changed right after `clearCache` are what every later answer goes by until they are changed again |
| SuggestionCache.EntriesStay | src/debug/suggestion.cpp:239-303 | only a miss and `clearCache` touch the entries: no hit, no change of settings or of the case flag does |
| SuggestionCache.StepSound | src/debug/suggestion.cpp:36-84 | each step, case toggles and evictions included, keeps every cached answer equal to recomputation |
| SuggestionCache.CacheStaysBounded | src/debug/suggestion.cpp:57-84 | over every run both maps have the same keys, the size stays within max(1, maxCacheSize) and the counters agree |
| SuggestionCache.CountersTell | src/debug/suggestion.cpp:27-84 | calls and misses count the calls with an input, and those of them not cached, since the last reset; every miss is one insertion |
| SuggestionCache.SizeAfterMiss | src/debug/suggestion.cpp:57-79 | a miss adds one entry; only when the cache is full a fifth of the limit, at least one entry, goes before |
| SuggestionCache.EvictsOldestInsertions | src/debug/suggestion.cpp:58-79 | what is evicted entered before everything kept, with a moving clock; with equal times only the order among those is open |
| SuggestionCache.StaysForAWhile | src/debug/suggestion.cpp:58-79 | with a moving clock an entry is evicted only after at least four fifths of the limit, for limits below ten all but one, have been inserted after it |
| SuggestionStale.ChangeIsHarmlessIff | src/debug/suggestion.cpp:239-295 | after a change of settings the next equal call is right for every matching and scoring if and only if the limits show equally much and, unless that is nothing, index, weights and filters agree |
| SuggestionStale.StaleAfterNewLimit | src/debug/suggestion.cpp:292-295 | after `setMaxSuggestions` the next hit is right if and only if old and new limit show equally many of the ranked items |
| SuggestionStale.StaleHitExample | src/debug/suggestion.cpp:292-295 | a run whose last hit shows two items under a limit of one |
| SuggestionStale.StaleAfterSetDataset | src/debug/suggestion.cpp:246-251 | a run whose last hit shows an item that is no longer in the data set |
| SuggestionStale.StaleAfterUpdateDataset | src/debug/suggestion.cpp:239-244 | a run whose last hit lacks an item that was added |
| SuggestionStale.StaleAfterSetWeight | src/debug/suggestion.cpp:265-268 | a run whose last hit has the order of the old weights |
| SuggestionStale.StaleAfterAddFilter | src/debug/suggestion.cpp:270-273 | a run whose last hit shows an item that the new filter rejects |
| SuggestionEngine.SortKeys | src/debug/suggestion.cpp:63-74 | the keys of the access times, each once, by ascending time |
| SuggestionEngine.FirstAreOldest | src/debug/suggestion.cpp:59-79 | the first keys of that order are a choice of oldest entries of the size the code removes |
| SuggestionEngine.SuggestionEngine.constructor | src/debug/suggestion.cpp:21-25 | a new engine with its index built and nothing cached |
| SuggestionEngine.SuggestionEngine.BuildIndex | src/debug/suggestion.cpp:253-263 | the loop builds the index of the data set |
| SuggestionEngine.SuggestionEngine.Evict | src/debug/suggestion.cpp:58-79 | removes the same oldest entries from both maps |
| SuggestionEngine.SuggestionEngine.Suggest | src/debug/suggestion.cpp:27-84 | answer and new state are a step of the state machine |
| SuggestionEngine.SuggestionEngine.ClearCache | src/debug/suggestion.cpp:280-284 | both maps are empty and the counted size is zero; the other counters and the settings stay |
| SuggestionEngine.SuggestionEngine.ResetStats | src/debug/suggestion.cpp:480-485 | the counters start again, with the sizes of data set and cache |
| SuggestionEngine.SuggestionEngine.SetCaseSensitivity | src/debug/suggestion.cpp:297-303 | the flag is set and the index rebuilt, the cache kept |
| SuggestionEngine.SuggestionEngine.SetDataset | src/debug/suggestion.cpp:246-251 | data set and index are replaced, the cache kept |
| SuggestionEngine.SuggestionEngine.UpdateDataset | src/debug/suggestion.cpp:239-244 | data set and index grow, the cache is kept |
| SuggestionEngine.SuggestionEngine.SetWeight | src/debug/suggestion.cpp:265-268 | one weight is set; index, cached answers and counters stay |
| SuggestionEngine.SuggestionEngine.AddFilter | src/debug/suggestion.cpp:270-273 | one filter is added at the end; index, cached answers and counters stay |
| SuggestionEngine.SuggestionEngine.SetMaxSuggestions | src/debug/suggestion.cpp:292-295 | the limit changes; index, cached answers and counters stay |

## Left out

- Integer widths: token counts, log sizes and distances are unbounded; the casts to `int` in the rate limiter and the edit distance are taken to fit.
- Rate limiter: intervals are at least 1 ms and the maximum is not negative; the code divides by the interval without a test.
- Rate limiter clock: only `allow_request` of the IP limiter reads the clock under the lock (line 144); lines 16, 87, 114 and 130 read it before. The theorems about the bucket and about counting need no order of instants, those about the limiters say what each amount of disorder costs.
- Matching, scoring, sorting by score and filters in `processSuggestions`: one fixed function of index, case flag, weights, filters, input and match type. Floating point is not modelled, nor exceptions thrown by filters, nor `setFuzzyMatchThreshold`.
- Case folding is that of the C locale.
- `updateConfig` and `updateFromHistory` of the suggestion engine lock a non-recursive mutex twice (lines 487 and 499, 306 and 319) and are in no run; the history counts are therefore constant. The time spent and the number of filtered items are not modelled.
- IpcFraming: JSON text is opaque bytes; end of file is a read that returns nothing.
- ExecutorSession: the client writes all its requests and reads all replies; its own time-outs, closed pipes and sessions of more than 2^32 - 1 sends, whose numbers no header can hold, are not modelled. In `ExecutorProtocol` sequence ids are unbounded.
- Executor: running scripts, output capture and result conversion are opaque; scripts raise only ordinary exceptions and report only while they run. Broken pipes while sending are not in the message-loop model.
- Interpreter pool: one life time from `initialize` to the end of `shutdown`; `initialize` itself, re-initialisation, `resetStatistics`, `setMaxQueueSize`, execution-time statistics and the Python lock are not modelled. The pointer cast in `acquire` is taken as the owning pool, and guards move within one pool.
- Which waiting `acquire` a notification wakes, and the deadline itself: a wait may end at any time, with or without a time-out.
- Promises and futures of the pool and of the event loop.
- Event loop: the ASIO branch, epoll and socket multiplexing, `wakeup`, sleeping, `schedulePeriodic` and the task allocator. `stop` ends workers between passes and can leave their tasks in the queue; the machine allows a worker to pause for ever at any point.
- EventLoop.EventLoop.WorkerPass: a single worker with nothing else touching the queue; interleavings are in `EventWorkers`.
- Task manager: notifications, progress, results, error texts, `listActiveTasks`, `listTasksByType`, statistics as JSON and periodic tasks. Identifiers are fresh, runners throw only standard exceptions and change the status only through `cancelTask` and `failTask`. Reads and writes of the status are single steps although the field is not atomic.
- TaskManager.TaskManager.CancelTask: calls are taken one at a time in the class; interleaving with the closure is in `TaskLifecycle`.
- The rules of both checkers, apart from the nesting depth.
- Command dispatcher, WebSocket server, Python caller and the incremental compiler.
