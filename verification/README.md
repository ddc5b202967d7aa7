# Verification models for the TriggerX backend

A Dafny model of the parts of the backend that hold state over time: loops with a cursor, tables kept in
step with one another, counters with an expiry, and files that are rotated. Each operation that changes
state in the Go code is a method of a class with the same fields, specified by a function from the old state
to the new one; the theorems are about those functions, over whole runs. Failures may come anywhere in the
runs of EventWorker, ChainPoller, RateLimiter (lost answers), KeeperOverlap, KeeperLiveness, EventInterleaving,
EventRunning, StreamRuns and TimeJobFaults, and in the size bounds of LogRefinement, whose refinement theorem
supposes unhindered clean-ups. The run theorems of TimeJobs, KeeperUptime and StreamLifetime suppose that the
store calls succeed, and those of EventRegistry and Hub are about operations that have no failing calls.

`dafny verify dfyconfig.toml` checks everything (Dafny 4.11).

| file | what it models |
|---|---|
| `BlockRanges.dfy` | cutting an inclusive block range into bounded chunks |
| `EventWorker.dfy` | the event worker's polling loop and its persistent cursor |
| `ChainPoller.dfy` | the task monitor's polling loop over chains and subscriptions |
| `Hex.dfy` | the two hexadecimal block-number parsers and the printer |
| `RateLimiter.dfy` | the fixed-window limiter script and its callers |
| `LogRotator.dfy`, `LogRefinement.dfy` | the sequential log rotator, and its refinement of one append-only log |
| `TimeJobs.dfy` | the time-job scheduler: due query, cursor advance, completion |
| `TimeJobFaults.dfy` | the same with store failures and abandoned polls, in one poll and over runs |
| `KeeperUptime.dfy` | the persisted online flag and uptime of a keeper, with retries |
| `KeeperOverlap.dfy` | overlapping updates of one keeper's row, store call by store call |
| `KeeperLiveness.dfy` | the in-memory keeper table, and its interleaving with the database |
| `EventRegistry.dfy`, `EventService.dfy` | the monitoring registry, and the worker table reconciled with it, section by locked section |
| `EventInterleaving.dfy` | those sections under concurrent callers |
| `EventRunning.dfy` | the workers that run, in the table or out of it |
| `StreamExpiration.dfy` | task streams and the sorted sets that index their expiry, each with a deadline of its own |
| `StreamRuns.dfy`, `StreamLifetime.dfy` | agreement of streams and sets over runs, and the lifetime of one entry |
| `Hub.dfy` | the WebSocket hub: clients, rooms, queues |
| `Backoff.dfy` | retry, webhook and reconnect delays and loops |
| `JobChain.dfy` | linking the jobs of one request, last to first |
| `Leaderboard.dfy` | the leaderboard order |
| `Wrappers.dfy`, `GoNumbers.dfy` | `Option`; the 64-bit word and the second |

Databases, Redis, nodes, clocks and random draws are parameters: each method takes the answers it would get,
including which calls fail. Go maps are iterated in an arbitrary order, as in Go.

## Where the code and its evident purpose part

Each of these is stated as an exact condition, an example, or both.

- A poll of the event worker loses a failed chunk when a later chunk of the same poll succeeds. Coverage is
  exactly once precisely when the failures of every poll are its last chunks (`CoverageExactlyOnceIff`,
  `SkippedBlockExample`).
- The comment at `worker.go:59` says a failed start will be retried on the next poll. The code leaves the
  cursor at 0, and the next poll scans from block 1 (`InitialiseCursor`).
- The two block-number parsers differ in two ways: beyond 64 bits one reports an error and the other keeps the
  low 64 bits, and of a signed number one reports an error and the other drops the sign (`ParsersAgreeIff`).
- A log query of the chain poller that fails is never repeated, so the events of its ten blocks are lost for
  that subscription (`AnsweredIff`).
- A fixed window of `limit` requests per minute admits up to `2*limit - 1` in some minute, and that number is
  reached (`SlidingBound`, `SlidingBoundIsTight`). The net/http entry point lets requests through when the
  store does not answer.
- A rename of the rotator overwrites a file when the directory listing fails and number 1 is in use
  (`RenameOverwritesIff`). A failed stat can leave the tracked size wrong (`SizeTrackedIff`).
- A poll for time jobs that is abandoned, by a store failure or by one job without a next time, hands out
  nothing, but has already consumed the slots of the jobs before (`LosesSlotIff`, `MissingSlotIff`,
  `AbandonedPollLosesSlot`). A job that falls behind is never found again
  (`BehindForever`). A first slot beyond the expiration is still handed out (`SlotsWithinExpirationIff`).
- The uptime update is retried although it is not idempotent (`RetryIsIdempotentIff`). Where updates of one row
  overlap, a total computed from an old read can lower stored uptime (`RunNeverFallsIff`), and a read between
  the two writes of another update counts time again (`CountsAgainIff`, `OverlapBound`).
- A keeper that checks in between a sweep's mark and its database write ends active in memory and offline in
  the database; so does an active keeper at a dump, and one whose check-in runs out of retries. Nothing else
  does this (`StepKeepsMirrorIff`, `RunMirrorsIff`, `LateSweepWriteExample`).
- Three interleavings bind a registered key to a worker of a cancelled entry: registering the key before a sync
  has removed the worker of its expired entry, the late table write of a registration whose entry has been
  replaced since it was fetched, and a sync acting on an outdated copy of the registry (`StepKeepsBoundIff`,
  `RunBoundIff`, and one example of each). No later sync that finds the key registered replaces the worker
  (`DeadWorkerStays`). Two registrations that both saw no worker start two for one entry, of which only one
  can be stopped by its key (`RunAtMostOneIff`, `TwoWrites`). Rolling back a failed registration restores the registry only for a request id that
  was new (`UndoRestoresIff`).
- Trimming a stream leaves its tracking set behind (`TrimKeepsAgreementIff`). The tracking set lives for an hour
  from the last addition, as long as its entries: the last entry of a burst is removed only by a clean-up within
  the very second in which both hours end, and otherwise stays (`EntryLifetime`, `LastOfBurstStaysIff`). Each
  stream starts with an untracked entry and a deadline that nothing renews, after which it goes with all its
  entries (`InitializeAgrees`, `CreatedStreamBreaks`).
- The room check indexes out of range for rooms of three or four characters (`AccessDecidedIff`).
- An initial retry delay above the maximum is used once, uncapped (`BackoffLawIff`).
- Repeating a job id in one request breaks its chain (`ChainIff`).

## Model

| member | source | states |
|---|---|---|
| `BlockRanges.ChunksTile` | internal/eventmonitor/worker/worker.go:111-118 | the chunks of from..to are non-empty, at most the maximum range long, contiguous, and end exactly at to |
| `BlockRanges.TilesOrdered` | internal/eventmonitor/worker/worker.go:113-118 | a later chunk lies strictly above an earlier one and all lie within the range, so no block is in two |
| `BlockRanges.TilesCover` | internal/eventmonitor/worker/worker.go:113-118 | every block of the range lies in one of the chunks |
| `EventWorker.Worker.InitialiseCursor` | internal/eventmonitor/worker/worker.go:53-73 | a set cursor is kept; an unset one goes to the current block less the look-back, or to 0 when the block is lower or unknown |
| `EventWorker.Worker.PollEvents` | internal/eventmonitor/worker/worker.go:97-149 | one poll, with any set of failing queries: the loop processes the successful chunks in order and leaves the cursor on the last of them |
| `EventWorker.ChunkAdvances` | internal/eventmonitor/worker/worker.go:113-117 | in uint64 arithmetic the loop advances if and only if the range is positive and neither addition wraps |
| `EventWorker.ProcessedIffInSuccess` | internal/eventmonitor/worker/worker.go:121-146 | a block is processed exactly when a successful chunk contains it |
| `EventWorker.CursorIsLastSuccess` | internal/eventmonitor/worker/worker.go:144-146 | the cursor is the end of the last successful chunk, or stays put when there is none |
| `EventWorker.PollAccounting` | internal/eventmonitor/worker/worker.go:97-149 | in one poll the blocks between old and new cursor are each processed once or skipped, skipped meaning: in a failed chunk followed by a successful one |
| `EventWorker.CursorAdvances` | internal/eventmonitor/worker/worker.go:97-149 | over any run the cursor never decreases and never passes a reported block number |
| `EventWorker.BlockAccounting` | internal/eventmonitor/worker/worker.go:97-149 | over any run a block at or below the cursor is processed if and only if no poll skipped it |
| `EventWorker.RunIncreasing` | internal/eventmonitor/worker/worker.go:97-149 | over any run blocks are processed in strictly increasing order, hence at most once |
| `EventWorker.ScanAccounting` | internal/eventmonitor/worker/worker.go:97-149 | the whole account of a run with arbitrary failures: at most once, monotone bounded cursor, and the gaps are exactly the skipped blocks |
| `EventWorker.CoverageExactlyOnceIff` | internal/eventmonitor/worker/worker.go:122-146 | no gap at all if and only if in every poll no successful chunk follows a failed one |
| `EventWorker.PollCatchesUpIff` | internal/eventmonitor/worker/worker.go:97-149 | a poll brings the cursor up to the block number it was given if and only if its last chunk succeeds |
| `EventWorker.HighestMeans` | internal/eventmonitor/worker/worker.go:97-103 | the highest block number reported is reported by some poll, or is the start when none is above it, and no poll reports more |
| `EventWorker.ScanCatchesUp` | internal/eventmonitor/worker/worker.go:97-149 | progress over a run: when the last chunk of every poll succeeds, in particular when no query fails, the cursor stands at the highest block number reported |
| `EventWorker.MiddleFails` | internal/eventmonitor/worker/worker.go:124-146 | of three chunks the middle one failing, the outer two are processed and the cursor passes all three |
| `EventWorker.SkippedBlockExample` | internal/eventmonitor/worker/worker.go:124-146 | a concrete poll that loses block 2 |
| `ChainPoller.ChainPoller.constructor` | internal/taskmonitor/events/listener.go:339-348 | the poller starts at the head of the chain, with nothing queried |
| `ChainPoller.ChainPoller.PollOnce` | internal/taskmonitor/events/listener.go:358-444 | a tick queries every chunk for every subscription whether or not earlier queries fail, then moves lastBlock; it does neither without a newer block, and stops in the middle when the context ends; `TickOutcome` says which of these, in block numbers |
| `ChainPoller.ChainPoller.QueryAll` | internal/taskmonitor/events/listener.go:378-441 | the loop over subscriptions sends all chunks of each in turn, or the prefix of that list sent before the context ended |
| `ChainPoller.ChainPoller.QuerySubscription` | internal/taskmonitor/events/listener.go:387-440 | the inner loop terminates and sends exactly the chunks of (last, current], or a prefix of them |
| `ChainPoller.StoppedAt` | internal/taskmonitor/events/listener.go:380-395 | stopping after n chunks of a subscription leaves a proper prefix of the full query list |
| `ChainPoller.TimesInAll` | internal/taskmonitor/events/listener.go:378-441 | one tick's queries contain each (subscription, block) pair of the range exactly once and no other pair |
| `ChainPoller.TickCoverage` | internal/taskmonitor/events/listener.go:358-444 | a finished tick adds one query per subscription and new block; a cut-off tick at most one |
| `ChainPoller.TickOutcome` | internal/taskmonitor/events/listener.go:358-444 | a tick that sees a higher block takes one query per subscription for every ten new blocks or part of them: the poller ends at that block, or is stopped where it stood exactly when the context is shorter than that |
| `ChainPoller.HighestMeans` | internal/taskmonitor/events/listener.go:358-369 | the highest block reported is reported by some tick, or is the head when none is above it, and no tick reports more |
| `ChainPoller.PollerCatchesUp` | internal/taskmonitor/events/listener.go:354-447 | progress over any run: the poller is stopped if and only if some tick with a new highest block has a context too short for its queries, and until then it stands at the highest block reported |
| `ChainPoller.CoverageExactlyOnce` | internal/taskmonitor/events/listener.go:354-447 | over any run each block above the starting head up to lastBlock is queried exactly once per subscription, and none twice even if the poller is stopped in mid-poll |
| `ChainPoller.QueriesAreShort` | internal/taskmonitor/events/listener.go:386-399 | every query of a run is for a non-empty range of at most ten blocks of a known subscription |
| `ChainPoller.TickAnswersIff` | internal/taskmonitor/events/listener.go:408-416 | of the pairs a tick covers exactly those go unanswered whose chunk's query fails |
| `ChainPoller.AnsweredIff` | internal/taskmonitor/events/listener.go:354-447 | after any run a (subscription, block) pair passed by the i-th tick is answered if and only if that tick's one query for its chunk did not fail: a failed query is never made up for |
| `Hex.DigitsRoundTrip` | internal/eventmonitor/worker/worker.go:358-361 | reading the hexadecimal digits of a number gives the number back |
| `Hex.HexRoundTrip` | internal/taskmonitor/events/listener.go:665-677 | both parsers give back every 64-bit number that was printed |
| `Hex.CaseDoesNotMatter` | internal/eventmonitor/worker/worker.go:338-346 | hexadecimal digits are read alike in either letter case |
| `Hex.ParsedAs` | internal/taskmonitor/events/listener.go:665-677 | for every number: both parsers read its digits with or without the prefix, up to 64 bits alike; beyond, one fails and the other gives the low 64 bits; after a sign, one fails and the other drops it |
| `Hex.ParsersAgreeIff` | internal/eventmonitor/worker/worker.go:338-346 | for every string: after a sign the two parsers agree if and only if no number follows; without one if and only if there is no number or it fits 64 bits |
| `RateLimiter.KeysNeverCollide` | internal/dbserver/middleware/ratelimiter.go:59-93 | the gin and net/http counters never share a key, and different API keys never share a counter |
| `RateLimiter.RateLimiter.EvalScript` | internal/dbserver/middleware/ratelimiter.go:39-56 | the script counts up a live counter without moving its expiry, or starts one that expires in 60 s, and answers count, remainder, and the time left to within half a second |
| `RateLimiter.RateLimiter.ApplyGinRateLimit` | internal/dbserver/middleware/ratelimiter.go:58-89 | rejects when the count passes the limit or the answer is lost; touches only its own key, and nothing if the script did not take effect |
| `RateLimiter.RateLimiter.ApplyRateLimit` | internal/dbserver/middleware/ratelimiter.go:91-149 | rejects when the count passes the limit, lets the request through when the answer is lost, and reports the remainder and a reset time at most half a second after the end of the window and less than one and a half before it (the clock is cut to whole seconds) |
| `RateLimiter.RateLimiter.GetRateLimitStatus` | internal/dbserver/middleware/ratelimiter.go:151-171 | changes nothing, reports something left if and only if an ApplyRateLimit call at that moment would be let through, and a reset time within the same distance of the end of a window |
| `RateLimiter.HitMeans` | internal/dbserver/middleware/ratelimiter.go:44-47 | a request adds one to a counter that has not expired and leaves its expiry, and otherwise starts a counter at one that expires 60 s later |
| `RateLimiter.TtlIsNearest` | internal/dbserver/middleware/ratelimiter.go:48-54 | the time left is given to the nearest second, and as -2 exactly for a counter that does not exist or has expired |
| `RateLimiter.LedgerHolds` | internal/dbserver/middleware/ratelimiter.go:39-89 | the invariant behind the sliding bound: what the live counter says about the requests let through so far in a given interval |
| `RateLimiter.SlidingBound` | internal/dbserver/middleware/ratelimiter.go:39-149 | any half-open interval of 60 s admits at most 2*limit - 1 requests, plus one per lost answer where lost answers let requests through |
| `RateLimiter.SlidingBoundIsTight` | internal/dbserver/middleware/ratelimiter.go:39-89 | for every limit a trace admits exactly 2*limit - 1 requests in one such interval |
| `RateLimiter.WindowCounter` | internal/dbserver/middleware/ratelimiter.go:44-47 | inside a window the counter equals the requests so far, and rejected requests never extend its expiry |
| `RateLimiter.WindowAdmits` | internal/dbserver/middleware/ratelimiter.go:39-56 | a window admits exactly min(requests in it, limit): the first ones |
| `RateLimiter.ExpiryAdvances` | internal/dbserver/middleware/ratelimiter.go:44-47 | once a counter is stored, no later request moves its expiry back |
| `RateLimiter.WindowsApart` | internal/dbserver/middleware/ratelimiter.go:44-47 | after a window is created no other opens for 60 s, whatever answers are lost |
| `LogRotator.SequentialRotator.Write` | pkg/logging/rotator.go:39-61 | opens if closed, rotates if the bytes would not fit, appends what the file accepts: succeeds if and only if the calls before the append succeed and all bytes are accepted, and the active file then ends in exactly the accepted ones; states the new directory, handle and size for every combination of failures |
| `LogRotator.WriteOutcome` | pkg/logging/rotator.go:39-61 | when the calls before the append succeed, the active file is what it held, or nothing after a rotation, followed by the bytes accepted, all of them if all are; otherwise none is appended; a write that fits rotates nothing |
| `LogRotator.SequentialRotator.Close` | pkg/logging/rotator.go:64-74 | gives the handle up in every case and changes nothing else |
| `LogRotator.SequentialRotator.OpenFile` | pkg/logging/rotator.go:77-100 | creates or reuses the active file and takes its length as the size; a failure leaves the handle closed |
| `LogRotator.SequentialRotator.Rotate` | pkg/logging/rotator.go:103-130 | close, rename to the next number, clean up, reopen, each failure leaving the state the code leaves |
| `LogRotator.SequentialRotator.GetNextSequenceNumber` | pkg/logging/rotator.go:133-158 | one more than the highest number in the directory, 1 when there is none or the listing fails |
| `LogRotator.SequentialRotator.CleanupOldFiles` | pkg/logging/rotator.go:161-229 | removes exactly the listed, removable files that have at least maxBackups newer ones or are older than maxAge days |
| `LogRotator.SequentialRotator.RemoveBeyond` | pkg/logging/rotator.go:206-216 | removes exactly the removable files after the first maxBackups of the list |
| `LogRotator.SequentialRotator.RemoveOlder` | pkg/logging/rotator.go:218-228 | removes exactly the removable files of the list that are older than the cutoff |
| `LogRotator.SequentialRotator.NewestFirst` | pkg/logging/rotator.go:196-204 | the listed numbers in strictly descending order |
| `LogRotator.CleanupMeetsSpec` | pkg/logging/rotator.go:206-228 | the two passes over the sorted list amount to one condition on each file by itself |
| `LogRotator.AboveIsIndex` | pkg/logging/rotator.go:201-215 | in the descending list a file's position is the number of listed files newer than it |
| `LogRefinement.RenameOverwritesIff` | pkg/logging/rotator.go:112-121 | a rename hits an existing file if and only if the listing failed and number 1 is taken |
| `LogRefinement.PruneLeavesSuffix` | pkg/logging/rotator.go:206-228 | dropping files of which no newer one than a kept file goes leaves a suffix of the byte stream |
| `LogRefinement.CleanupKeepsNewest` | pkg/logging/rotator.go:201-228 | with modification times ascending, a clean-up that keeps a file keeps every newer one |
| `LogRefinement.CleanupLeaves` | pkg/logging/rotator.go:161-229 | a clean-up leaves a file if and only if it cannot list, stat or remove it, or fewer than maxBackups listed files are newer and it is at most maxAge days old, each where limited; and leaves it unchanged |
| `LogRefinement.AtMostMaxBackups` | pkg/logging/rotator.go:206-216 | after an unhindered clean-up at most maxBackups rotated files remain, each among the maxBackups newest |
| `LogRefinement.WriteKeepsAtMostMaxBackups` | pkg/logging/rotator.go:39-130 | the same after a whole write that rotates |
| `LogRefinement.RotateKeepsSuffix` | pkg/logging/rotator.go:103-130 | a rotation keeps the byte stream up to dropping from its front, and all of it when nothing is removed |
| `LogRefinement.WriteRefines` | pkg/logging/rotator.go:39-61 | a write appends the accepted bytes to the one log, up to dropping from its front |
| `LogRefinement.FilesAreOneLog` | pkg/logging/rotator.go:39-229 | the refinement over any run of writes and closes: retained files oldest first, then the active one, are a suffix of initial contents plus all accepted bytes, and the whole of it when nothing was removed |
| `LogRefinement.RunAccepts` | pkg/logging/rotator.go:39-61 | the bytes a run counts as accepted are those its writes were given, cut where a file accepts less and dropped where a call before the append fails |
| `LogRefinement.EveryByteIsThere` | pkg/logging/rotator.go:39-229 | over any run in which no call before an append fails and every append takes all it is given, the files hold a suffix of the initial contents plus every byte written, and all of it when no file was removed |
| `LogRefinement.SizeTrackedIff` | pkg/logging/rotator.go:39-100 | a write leaves the tracked size equal to the open file's length except exactly when a non-empty file was opened after a failed stat and stays open |
| `LogRefinement.BoundedActive` | pkg/logging/rotator.go:47-60 | after a write the active file is unchanged, within maxSize, or the bytes of this write alone |
| `LogRefinement.WriteStaysBounded` | pkg/logging/rotator.go:39-130 | a write keeps all files produced within the bounds, whatever else fails |
| `LogRefinement.FilesStayBounded` | pkg/logging/rotator.go:39-130 | over any run every file produced is at most maxSize long or holds bytes of a single write, and the size stays tracked, as long as no missed stat is acted on |
| `TimeJobs.NextTimeIsOneIntervalOn` | pkg/parser/time.go:10-45 | for every interval and schedule: only interval schedules with a positive interval have a next time, and it is one interval on if and only if the nanoseconds fit 64 bits |
| `TimeJobs.TimeJobRepository.GetTimeJobsByNextExecutionTimestamp` | internal/dbserver/repository/time_job_repository.go:90-149 | one poll over the due rows with any store failures, reading the result included: rows advanced, tasks handed out, or the poll abandoned |
| `TimeJobs.TimeJobRepository.ScanRows` | internal/dbserver/repository/time_job_repository.go:97-143 | the scan loop advances the rows in the order read and stops at the first failure |
| `TimeJobs.TimeJobRepository.AdvanceRow` | internal/dbserver/repository/time_job_repository.go:97-143 | one row: hand out its slot and move it on, or complete and deactivate it when the next slot passes the expiration; a failure leaves the writes made before it, so that the row may stay completed and active |
| `TimeJobs.TimeJobRepository.CompleteTimeJob` | internal/dbserver/repository/time_job_repository.go:67-79 | marks the row completed even if the second write then fails |
| `TimeJobs.AbandonedStays` | internal/dbserver/repository/time_job_repository.go:97-143 | an abandoned poll writes nothing after the failure |
| `TimeJobs.PollIsPointwise` | internal/dbserver/repository/time_job_repository.go:90-149 | a successful poll treats each job as if it were alone |
| `TimeJobs.SlotIsDue` | internal/dbserver/repository/queries/job_queries_specific.go:112-119 | a successful poll hands out the slot of each active job whose slot lies from the clock to the look-ahead limit, and no other |
| `TimeJobs.PollSucceedsIff` | internal/dbserver/repository/time_job_repository.go:119-123 | without store failures a poll succeeds if and only if every due job has a next time |
| `TimeJobs.AbandonedPollLosesSlot` | internal/dbserver/repository/time_job_repository.go:97-143 | a concrete poll in which a cron job makes an interval job lose a slot |
| `TimeJobFaults.AllGoIff` | internal/dbserver/repository/time_job_repository.go:97-143 | a poll goes through its rows to the end if and only if each of them, as it was before the poll, has a next time and meets no failure |
| `TimeJobFaults.RowAt` | internal/dbserver/repository/time_job_repository.go:97-143 | what any failures leave of the row at a position: its turn's effect on its own value if all rows before it go, and nothing otherwise |
| `TimeJobFaults.LosesSlotIff` | internal/dbserver/repository/time_job_repository.go:90-149 | for any result order and failures, the slot of a row is consumed and not handed out if and only if the row comes before the point where reading breaks off, it and all before it go, and the poll is abandoned after it |
| `TimeJobFaults.RepeatingMoves` | internal/dbserver/repository/time_job_repository.go:119-140 | a turn that goes well always takes its slot from an interval job whose interval does not overflow |
| `TimeJobFaults.TurnFromSlot` | internal/dbserver/repository/time_job_repository.go:119-140 | one poll, with any failure, of a job that has consumed k slots: it consumes slot k or leaves the cursor there |
| `TimeJobFaults.ConsumptionLaw` | internal/dbserver/repository/time_job_repository.go:119-140 | over any run with failures and abandoned polls, slots are consumed in the order first + k*interval, each once, until the last that fits, with which the job ends completed and inactive |
| `TimeJobFaults.HandedOutIff` | internal/dbserver/repository/time_job_repository.go:145-149 | slot k is handed out if and only if it was consumed by a poll that was completed |
| `TimeJobFaults.HandedOutAscends` | internal/dbserver/repository/time_job_repository.go:145-149 | the slots handed out strictly increase |
| `TimeJobFaults.MissingSlotIff` | internal/dbserver/repository/time_job_repository.go:90-149 | in a run past the expiration a slot is missing if and only if the poll that consumed it was abandoned, or it was not consumed and the job is behind |
| `TimeJobFaults.PollIsTurn` | internal/dbserver/repository/time_job_repository.go:90-149 | a poll of a whole table, with any failures, does to each job what its own turn says |
| `TimeJobFaults.FaultyRunIsPointwise` | internal/dbserver/repository/time_job_repository.go:90-149 | over a run of such polls each job's row and slots are those of its own turns |
| `TimeJobs.TableRunIsPointwise` | internal/dbserver/repository/time_job_repository.go:90-149 | over a run of successful polls of a whole table each job's row and slots are those of the job by itself |
| `TimeJobs.StepFromSlot` | internal/dbserver/repository/time_job_repository.go:119-140 | a poll of a job that has handed out k slots hands out slot k if it is due, and stays active exactly while slot k+1 fits |
| `TimeJobs.EmissionLaw` | internal/dbserver/repository/time_job_repository.go:119-140 | whatever the poll times, the slots are first + k*interval in order, at most floor((expiration-first)/interval)+1 of them, and the job completes and deactivates together with the last |
| `TimeJobs.SlotsWithinExpirationIff` | internal/dbserver/repository/time_job_repository.go:126-140 | all slots lie within the expiration if and only if the first one does or none was handed out |
| `TimeJobs.BehindForever` | internal/dbserver/repository/queries/job_queries_specific.go:112-119 | an active job whose slot lies before the clock is never handed out again |
| `TimeJobs.EverySlotIff` | internal/dbserver/repository/time_job_repository.go:90-149 | a run past the expiration hands out every slot if and only if the job was behind at no poll |
| `TimeJobs.PolledOftenNeverBehind` | internal/dbserver/repository/time_job_repository.go:90-149 | with gaps of at most min(interval, look-ahead) the next time is never before the poll time |
| `TimeJobs.NoMissedSlot` | internal/dbserver/repository/time_job_repository.go:90-149 | then every slot up to the expiration is handed out exactly once and the job ends completed and inactive |
| `KeeperUptime.DatabaseManager.UpdateKeeperHealth` | internal/health/client/database.go:63-171 | the three store calls of one update, each of which may fail, and the row each failure leaves behind |
| `KeeperUptime.DatabaseManager.RetryWithBackoff` | internal/health/keeper/persistence.go:80-101 | repeats the update until it succeeds or attempts run out, carrying what failed attempts wrote |
| `KeeperUptime.RetryStopsAtSuccess` | internal/health/keeper/persistence.go:80-101 | attempts after the first success are not made and change nothing; after a failure the next one starts from the row it left |
| `KeeperUptime.OnlineAfterCheckIn` | internal/health/client/database.go:116-160 | a keeper is online exactly after a check-in, and remembers its timestamp |
| `KeeperUptime.UptimeBounds` | internal/health/client/database.go:84-160 | over any run of updates that do not overlap, uptime never decreases, never exceeds the total online time, and falls short of it by under a second per update, with exact allowance for check-in timestamps that are off the clock |
| `KeeperUptime.UptimeWithinLifetime` | internal/health/client/database.go:84-160 | without overlap, uptime gained is at most the online time, which is at most the time since the first check-in |
| `KeeperUptime.OfflineIsIdempotent` | internal/health/client/database.go:116-134 | repeated offline updates add nothing |
| `KeeperUptime.OnlineFollowsSuccess` | internal/health/keeper/persistence.go:80-101 | after retries the online flag is the update's value if a call succeeded and the old one otherwise |
| `KeeperUptime.RetryAddsDoubleCount` | internal/health/keeper/persistence.go:80-101 | a retried update equals its last attempt plus the seconds failed attempts had already added |
| `KeeperUptime.RetryIsIdempotentIff` | internal/health/keeper/persistence.go:80-101 | retrying changes nothing if and only if no attempt on an online row failed in its final write a second or more after the last check-in |
| `KeeperOverlap.CallsMakeUpdate` | internal/health/client/database.go:84-160 | with nothing in between, the three store calls are the update called alone, whichever of them fails |
| `KeeperOverlap.StepLowersUptimeIff` | internal/health/client/database.go:114-134 | a store call lowers stored uptime if and only if it stores a held total below it |
| `KeeperOverlap.RunNeverFallsIff` | internal/health/keeper/cleanup.go:40-51 | over any interleaving of updates, with failures anywhere, stored uptime never falls if and only if no update stores a total below it |
| `KeeperOverlap.FallNeedsOverlap` | internal/health/client/database.go:84-134 | such a total was computed before another update raised stored uptime |
| `KeeperOverlap.OverlapBound` | internal/health/client/database.go:84-160 | over any interleaving, with failures anywhere, uptime gained is at most the time passed plus the stretches that reads counted again |
| `KeeperOverlap.CountsAgainIff` | internal/health/client/database.go:84-119 | a read counts time again if and only if the row is online, stored uptime already counts past its check-in, and the clock is not before that check-in |
| `KeeperOverlap.HalfDoneIff` | internal/health/client/database.go:114-160 | which store calls leave the row in that state |
| `KeeperOverlap.UptimeFallsExample` | internal/health/keeper/cleanup.go:40-51 | a sweep's late write lowers uptime from 72 to 71 seconds |
| `KeeperOverlap.CountedTwiceExample` | internal/health/keeper/cleanup.go:40-51 | a check-in that reads between a sweep's two writes counts 71 seconds twice |
| `KeeperLiveness.StateManager.LoadVerifiedKeepers` | internal/health/keeper/persistence.go:12-47 | the table becomes exactly the verified rows, all inactive, or stays as it was when they cannot be read |
| `KeeperLiveness.StateManager.CheckIn` | internal/health/keeper/update.go:21-41 | makes a known keeper active with the time of the check-in and refuses an unknown address without any change |
| `KeeperLiveness.StateManager.MarkInactiveKeepers` | internal/health/keeper/cleanup.go:23-38 | deactivates exactly the active keepers silent for over 70 s and lists each of them once |
| `KeeperLiveness.ActiveAfterSweepsIff` | internal/health/keeper/cleanup.go:23-38 | after any run of sweeps a keeper is active if and only if it was before and no sweep came more than 70 s after its last check-in |
| `KeeperLiveness.StateManager.IsKeeperActive` | internal/health/keeper/state_manager.go:51-64 | true exactly for known active addresses |
| `KeeperLiveness.StateManager.GetAllActiveKeepers` | internal/health/keeper/state_manager.go:68-84 | lists every active address once and no other |
| `KeeperLiveness.StateManager.GetKeeperCount` | internal/health/keeper/state_manager.go:87-104 | the size of the table and of its active part |
| `KeeperLiveness.StepKeepsAgreementIff` | internal/health/keeper/cleanup.go:23-52 | which of the interleaved steps keep "online in the database and inactive in memory only while the sweep has it pending", exactly |
| `KeeperLiveness.ReachableStatesAgree` | internal/health/keeper/cleanup.go:23-52 | every state reachable by check-ins, sweeps and dumps interleaved agrees when sweep writes succeed, and no step but a load changes the known addresses |
| `KeeperLiveness.CheckInHasThreeAttempts` | internal/health/keeper/persistence.go:80-101 | a check-in holds the lock over at most three attempts at its write, and its row is online after the first that works |
| `KeeperLiveness.StepKeepsMirrorIff` | internal/health/keeper/cleanup.go:23-52 | a step keeps "active in memory means online in the database, but for a check-in still writing" if and only if it is none of: a sweep's write for a keeper active again, a dump's write for an active keeper, the last failing write of an offline keeper's check-in |
| `KeeperLiveness.RunMirrorsIff` | internal/health/keeper/update.go:21-56 | over any interleaved run that property holds all the way through if and only if none of the three steps occurs |
| `KeeperLiveness.DumpClearsTodo` | internal/health/keeper/persistence.go:50-77 | a dump whose writes succeed takes exactly the active keepers offline and frees the lock |
| `KeeperLiveness.DumpThenLoadAgrees` | internal/health/keeper/persistence.go:12-77 | shutdown by a successful dump and restart by a load of known keepers starts out in agreement |
| `KeeperLiveness.LateSweepWriteExample` | internal/health/keeper/cleanup.go:40-51 | a concrete interleaving that ends active in memory and offline in the database |
| `EventRegistry.SameKeyIff` | internal/eventmonitor/registry/registry.go:37-39 | with colon-free parts, two requests share a key if and only if chain and event are equal and the contracts are equal up to letter case |
| `EventRegistry.LowerIgnoresCase` | internal/eventmonitor/registry/registry.go:37-39 | two contracts count as equal if and only if they have the same length and the same letters up to case |
| `EventRegistry.RegistryManager.Register` | internal/eventmonitor/registry/registry.go:42-94 | adds or overwrites the subscriber in the entry of its key, creating the entry when missing; refuses a bad address without change |
| `EventRegistry.RegistryManager.GetEntryByRequestID` | internal/eventmonitor/registry/registry.go:151-165 | finds some key under which the id is subscribed, and nothing only if there is none |
| `EventRegistry.RegistryManager.Unregister` | internal/eventmonitor/registry/registry.go:97-139 | removes the subscriber found, and with the last one cancels and removes the entry; an unknown id changes nothing |
| `EventRegistry.RegistryManager.CleanupExpired` | internal/eventmonitor/registry/registry.go:207-245 | removes exactly the subscribers with expiry before now and cancels and removes exactly the entries they leave empty |
| `EventRegistry.RegistryManager.CleanupEntry` | internal/eventmonitor/registry/registry.go:212-243 | the part of a pass that deals with one entry |
| `EventRegistry.RegistryManager.RemoveExpired` | internal/eventmonitor/registry/registry.go:216-232 | collect-then-delete leaves exactly the unexpired subscribers |
| `EventRegistry.RegisterStores` | internal/eventmonitor/registry/registry.go:42-94 | a registration stores its own URL and expiry under its key and id and leaves every other subscriber as it was |
| `EventRegistry.RemoveTakes` | internal/eventmonitor/registry/registry.go:97-139 | an unregistration takes away that one subscriber and no other |
| `EventRegistry.CleanupTakes` | internal/eventmonitor/registry/registry.go:207-245 | a clean-up takes away exactly the subscribers whose expiry lies before it |
| `EventRegistry.LatestRegistrationIsStored` | internal/eventmonitor/registry/registry.go:79-86 | over any run, what is stored under a key and an id is what the latest registration of the two asked for |
| `EventRegistry.CleanupNext` | internal/eventmonitor/registry/registry.go:210-244 | a pass that has dealt with some keys, and deals with one more, is the pass over all of those keys, in whatever order the map is walked |
| `EventRegistry.ApplyKeepsValid` | internal/eventmonitor/registry/registry.go:42-245 | every operation keeps: entries have a subscriber, sit under their own key, are not cancelled, and have unique identities |
| `EventRegistry.RegistryStaysValid` | internal/eventmonitor/registry/registry.go:42-245 | the invariant holds after any run |
| `EventRegistry.RemovedEntriesAreCancelled` | internal/eventmonitor/registry/registry.go:122-136 | an operation cancels an entry if and only if it removes it, and never changes the identity of one that stays |
| `EventRegistry.UndoRestoresIff` | internal/eventmonitor/service/service.go:145-153 | registering and unregistering by request id restores the entries if and only if the id was subscribed nowhere before |
| `EventService.EventMonitor.Register` | internal/eventmonitor/service/service.go:133-157 | called alone: registers and starts a worker when the key has none; when that fails, unregisters the request id again |
| `EventService.EventMonitor.TryStart` | internal/eventmonitor/service/service.go:197-225 | fetches the key's entry and writes a worker for it over whatever worker the key has, if there is an entry and its chain has a client |
| `EventService.EventMonitor.GetEntryWithClient` | internal/eventmonitor/service/service.go:198-207 | the section under the registry's lock: the present entry of the key, if its chain has a client |
| `EventService.EventMonitor.WriteWorker` | internal/eventmonitor/service/service.go:212-214 | the section under the table's lock: binds the key to a worker of the entry it is given, however old |
| `EventService.EventMonitor.Unregister` | internal/eventmonitor/service/service.go:160-189 | unregisters, and stops the worker of the key looked up if that key has no entry left |
| `EventService.EventMonitor.SyncWorkers` | internal/eventmonitor/service/service.go:243-275 | called alone: starts the missing workers that can be started, stops those without an entry, leaves the others alone |
| `EventService.EventMonitor.GetAllEntries` | internal/eventmonitor/registry/registry.go:168-178 | the first section of a sync: a reference to every entry |
| `EventService.EventMonitor.SyncTable` | internal/eventmonitor/service/service.go:246-274 | the second section: starts and stops workers by the copy it is given, however old |
| `EventService.EventMonitor.Stop` | internal/eventmonitor/service/service.go:106-118 | empties the worker table |
| `EventInterleaving.SectionsMakeRegister` | internal/eventmonitor/service/service.go:133-157 | with nothing in between, the sections of a registration amount to the operation called alone |
| `EventInterleaving.NextServed` | internal/eventmonitor/service/service.go:133-275 | every locked section keeps: the registry invariant, keys that carry their chain, and workers and held references that belong to entries that have existed |
| `EventInterleaving.RunServed` | internal/eventmonitor/service/service.go:133-275 | in any interleaving of the locked sections every worker belongs to a chain with a client and the registry invariant holds |
| `EventInterleaving.SyncReconciles` | internal/eventmonitor/service/service.go:243-275 | in any reachable state the second section of a sync leaves workers for exactly the keys the first one read whose chain has a client, and for exactly the registered ones if the registered keys are still those |
| `EventInterleaving.StepKeepsBoundIff` | internal/eventmonitor/service/service.go:142-147 | a section binds a registered key to an earlier entry if and only if it registers an orphaned key, writes a worker for an entry that has been replaced, or syncs from a copy in which a key to start is outdated |
| `EventInterleaving.RunBoundIff` | internal/eventmonitor/service/service.go:133-275 | over any interleaving the workers stay bound to the current entries all the way through if and only if none of its sections is one of the three |
| `EventInterleaving.SyncLeavesLiveWorkers` | internal/eventmonitor/service/service.go:243-275 | in such a run, after every sync each registered key it read and whose chain has a client has a worker bound to its current, uncancelled entry |
| `EventInterleaving.StepKeepsWorkerIff` | internal/eventmonitor/service/service.go:212-274 | exactly when a section takes a key's worker out of the table or replaces it |
| `EventInterleaving.DeadWorkerStays` | internal/eventmonitor/service/service.go:248-256 | over any run a dead worker stays, its entry cancelled, until such a section; a sync that read the key is not one |
| `EventInterleaving.DeadWorkerExample` | internal/eventmonitor/registry/registry.go:234-241 | a run with an expiry and a re-registration before the sync ends with a registered key and a dead worker |
| `EventInterleaving.LateWriteExample` | internal/eventmonitor/service/service.go:197-214 | so does one in which the entry is replaced between a registration's fetch and its table write |
| `EventInterleaving.StaleReadExample` | internal/eventmonitor/service/service.go:244-261 | so does one in which it is replaced between the two sections of a sync |
| `EventRunning.StepKeepsAtMostOneIff` | internal/eventmonitor/service/service.go:212-214 | a section keeps every registered entry at one running worker at most if and only if it neither writes one for an entry that has one running nor, in a sync, starts one where a replaced worker runs |
| `EventRunning.RunAtMostOneIff` | internal/eventmonitor/service/service.go:133-275 | over any interleaving no registered entry ever has two running if and only if no section does either |
| `EventRunning.PutRunning` | internal/eventmonitor/service/service.go:212-214 | a table write for the key's current entry always adds a running worker, as the one it replaces is not stopped |
| `EventRunning.TwoWrites` | internal/eventmonitor/service/service.go:142-147 | two registrations that both fetched an entry without a worker leave two running, and stopping the key leaves one |
| `StreamExpiration.DecodeIff` | internal/taskmonitor/tasks/expiration_manager.go:298-306 | decoding a member gives an id if and only if the member is the encoding of that id and the id is non-empty |
| `StreamExpiration.ExpirationKeysDistinct` | internal/taskmonitor/tasks/expiration_manager.go:36-38 | no two streams share a tracking set |
| `StreamExpiration.TaskStreamManager.Lapse` | internal/taskmonitor/tasks/expiration_manager.go:19-20 | the store drops every stream and tracking set whose deadline has come |
| `StreamExpiration.TaskStreamManager.Initialize` | internal/taskmonitor/tasks/manager.go:51-73 | creates the missing streams in any order up to the first failure |
| `StreamExpiration.TaskStreamManager.CreateStreamIfNotExists` | pkg/client/redis/stream.go:10-35 | a missing stream gets a first, untracked entry and a deadline in an hour; an existing one is left alone |
| `StreamExpiration.TaskStreamManager.AddTaskToStream` | internal/taskmonitor/tasks/task_add.go:167-238 | adds the entry, possibly trimming older ones, without renewing the stream's deadline, then its tracking member, whose failure is passed over; a failed addition changes nothing |
| `StreamExpiration.TaskStreamManager.AddMessageExpiration` | internal/taskmonitor/tasks/expiration_manager.go:192-236 | puts the encoded member into the stream's own set with the second an hour ahead as its score, and renews the set's deadline, unless that call fails; touches no other |
| `StreamExpiration.TaskStreamManager.GetExpiredMessages` | internal/taskmonitor/tasks/expiration_manager.go:277-310 | the ids of the decodable members with a score from 0 to now, none when the query fails |
| `StreamExpiration.TaskStreamManager.QueryAll` | internal/taskmonitor/tasks/expiration_manager.go:313-336 | the expired ids of each stream, none for a stream whose query fails |
| `StreamExpiration.TaskStreamManager.CleanupExpiredStreamEntries` | internal/taskmonitor/tasks/manager.go:439-493 | on the store as it is at the time, queries all streams first and then sweeps each, with any failures of queries, deletions and removals |
| `StreamExpiration.TaskStreamManager.SweepAll` | internal/taskmonitor/tasks/manager.go:448-484 | the loop over the streams that have expired entries |
| `StreamExpiration.TaskStreamManager.CleanStream` | internal/taskmonitor/tasks/manager.go:456-484 | deletes the listed entries that can be deleted, then takes the listed members that can be removed out of the tracking set |
| `StreamExpiration.TaskStreamManager.DeleteEntries` | internal/taskmonitor/tasks/manager.go:459-474 | deletes exactly the listed entries whose deletion does not fail |
| `StreamExpiration.TaskStreamManager.RemoveMultipleMessageExpirations` | internal/taskmonitor/tasks/expiration_manager.go:339-380 | removes exactly the members that encode the listed ids, less those a broken pipeline did not get to; the set goes with its last member |
| `StreamRuns.LapseKeepsAgreementIff` | internal/taskmonitor/tasks/expiration_manager.go:217-225 | agreement survives the passing of time if and only if no set goes with members in it while its stream stays, and no stream goes with untracked entries or with its set staying |
| `StreamRuns.CreateKeepsAgreementIff` | internal/taskmonitor/tasks/manager.go:57-73 | creating a stream breaks its agreement if and only if it did not exist |
| `StreamRuns.AddKeepsAgreementIff` | internal/taskmonitor/tasks/task_add.go:167-238 | an addition keeps a stream and its tracking set in agreement if and only if it fails, or its member is written and nothing is trimmed, or it is to another stream |
| `StreamRuns.TrimKeepsAgreementIff` | internal/taskmonitor/tasks/manager.go:399-436 | a periodic trim keeps the agreement if and only if it drops nothing |
| `StreamRuns.SweepIsPerStream` | internal/taskmonitor/tasks/manager.go:439-493 | the effect of a clean-up on one stream is that of sweeping it alone |
| `StreamRuns.CleanKeepsAgreementIff` | internal/taskmonitor/tasks/manager.go:456-484 | with failures, agreement survives a clean-up if and only if the deletion of each entry and the removal of its member stand or fall together |
| `StreamRuns.RunAgreesIff` | internal/taskmonitor/tasks/manager.go:399-493 | over any run, with failures and lapses anywhere, from a stream whose ids are the tracked ones and some untracked ones: it stays that way throughout if and only if no lapse and no operation is one of those that break it |
| `StreamRuns.IndexAgrees` | internal/taskmonitor/tasks/manager.go:399-493 | after such a run the stream's ids are exactly the tracked ids and the untracked ones it started with |
| `StreamRuns.InitializeAgrees` | internal/taskmonitor/tasks/manager.go:51-73 | what the service starts from: each stream holds one untracked entry, has an hour to live, and agrees |
| `StreamRuns.CreatedStreamBreaks` | pkg/client/redis/stream.go:14-22 | an hour later that agreement is over, with the stream and its untracked entry |
| `StreamRuns.CleanupRemovesExactly` | internal/taskmonitor/tasks/manager.go:439-493 | a clean-up at now removes an entry if and only if its stream is one of the four and its query works, its member has a score from 0 to now, and the deletion does not fail |
| `StreamRuns.UntrackedStays` | internal/taskmonitor/tasks/expiration_manager.go:277-310 | an entry without a tracking member is never removed by a clean-up |
| `StreamLifetime.HoldsAfter` | internal/taskmonitor/tasks/expiration_manager.go:192-236 | what one operation makes of an entry: whether it is in its stream, whether its set names it, and the set's deadline |
| `StreamLifetime.EntryLifetime` | internal/taskmonitor/tasks/manager.go:439-493 | from any store, an entry is in its stream if and only if the stream has not lapsed and no clean-up came when its hour was over, every operation up to then having come before the set's deadline then in force; its set names it if and only if the set was kept throughout and no such clean-up came |
| `StreamLifetime.LastOfBurstStaysIff` | internal/taskmonitor/tasks/expiration_manager.go:19-20 | with the set kept for an hour and no addition following, an entry stays as long as its stream if and only if no clean-up comes in the second an hour after its addition but before the hour is over |
| `StreamLifetime.NotRemovedEarly` | internal/taskmonitor/tasks/expiration_manager.go:192-236 | an entry is in its stream as long as that lasts, after any run whose clean-ups all come before the second an hour after its addition |
| `StreamLifetime.RemovedInTime` | internal/taskmonitor/tasks/manager.go:439-493 | it is gone after any run with a clean-up in or after that second, in a swept stream whose set has been kept up to then |
| `Hub.AccessDecidedIff` | internal/dbserver/websocket/client.go:262-280 | the room check decides if and only if the room is shorter than three or longer than four bytes, and grants exactly the longer ones, but a user room only to the user claimed, who must be the client's own |
| `Hub.WebSocketHub.RegisterClient` | internal/dbserver/websocket/hub.go:121-127 | the client is registered, nothing else changes |
| `Hub.WebSocketHub.UnregisterClient` | internal/dbserver/websocket/hub.go:130-150 | takes the client out of the hub and of every room, deletes rooms left empty; nothing for an unknown client |
| `Hub.WebSocketHub.HandleSubscribe` | internal/dbserver/websocket/client.go:197-227 | a granted subscription enters the room in the client's record and the client in the room; otherwise no change |
| `Hub.WebSocketHub.HandleUnsubscribe` | internal/dbserver/websocket/client.go:230-254 | removes the room from the client's record and the client from the room, and the room if that empties it |
| `Hub.SubscribeMeans` | internal/dbserver/websocket/hub.go:153-171 | a subscription adds that client to that room and that room to its record, and no other membership or record entry changes |
| `Hub.UnsubscribeMeans` | internal/dbserver/websocket/hub.go:174-192 | an unsubscription takes away just those two |
| `Hub.WebSocketHub.SendTo` | internal/dbserver/websocket/hub.go:201-217 | every target gets one more copy in its queue, nobody else any |
| `Hub.WebSocketHub.BroadcastToRooms` | internal/dbserver/websocket/hub.go:195-229 | queues one copy per listed room containing the client, or one for every client when no room is listed |
| `Hub.CopiesCount` | internal/dbserver/websocket/hub.go:212-217 | a client gets as many copies as there are places in the list that name a room it is in |
| `Hub.CopiesPositiveIff` | internal/dbserver/websocket/hub.go:212-217 | it gets a copy if and only if it is in a listed room |
| `Hub.CopiesOfTwo` | internal/dbserver/websocket/hub.go:212-217 | it gets at least two when it is in the rooms of two places in the list |
| `Hub.ApplyKeepsConsistentIff` | internal/dbserver/websocket/hub.go:121-192 | an operation keeps the hub consistent if and only if a subscriber is registered and a new client brings an empty record |
| `Hub.HubStaysConsistent` | internal/dbserver/websocket/hub.go:121-192 | over any proper run rooms are non-empty, members are registered, and each registered client's own record equals the hub's view |
| `Hub.RegisteredIff` | internal/dbserver/websocket/hub.go:121-150 | over any run a client is registered if and only if it has registered and not unregistered since |
| `Hub.InRoomIff` | internal/dbserver/websocket/hub.go:121-192 | over any proper run a client is in a room if and only if it has subscribed to it and has neither unsubscribed from it nor unregistered since |
| `Hub.UnregisterRemovesEverywhere` | internal/dbserver/websocket/hub.go:130-150 | after unregistering the client is in no room, and every other client's registration, rooms and queue are untouched |
| `Backoff.DelaysAreCapped` | pkg/retry/retry.go:81-87 | multiplying and capping step by step is multiplying k times and capping once |
| `Backoff.BackoffLawIff` | pkg/retry/retry.go:81-137 | the k-th base delay is min(initial*factor^k, max) for all k if and only if initial <= max |
| `Backoff.PowAdds` | pkg/retry/retry.go:81-87 | the power in that law is the power: the first is the factor itself, and exponents add |
| `Backoff.Retry` | pkg/retry/retry.go:91-137 | at most MaxRetries calls; which call or wait ends the loop with success, a non-retryable error, the end of the context or exhaustion; every sleep is the jittered base delay of its attempt |
| `Backoff.JitterBounds` | pkg/retry/retry.go:71-78 | jitter lengthens a delay by at most the jitter factor and never shortens it |
| `Backoff.DrawPlacesDelay` | pkg/retry/retry.go:71-78 | the random draw places the delay proportionally between the base delay and the base delay plus the whole jitter factor |
| `Backoff.SleepsWithinJitter` | pkg/retry/retry.go:71-137 | every sleep of the loop lies between its base delay and that plus the jitter factor |
| `Backoff.Send` | internal/eventmonitor/webhook/client.go:32-99 | delivers if and only if one of the first maxRetries+1 posts gets a 2xx, stops at the first such, and has slept retryDelay*(2^(posts-1) - 1) |
| `Backoff.ReconnectDelayBounds` | pkg/websocket/websocket.go:423-440 | every reconnect delay lies in [base, 1.25*max], and in [base, max] without jitter |
| `Backoff.ReconnectLaw` | pkg/websocket/websocket.go:423-440 | without jitter the k-th wait is min(base*factor^k, max) |
| `Backoff.DrawPlacesWait` | pkg/websocket/websocket.go:423-440 | with jitter the draw places a wait proportionally between 0.75 and 1.25 times the capped delay, but not below base |
| `Backoff.ReconnectLoop` | pkg/websocket/websocket.go:363-420 | connects at the first attempt that works, gives up after exactly MaxRetries failures, ends when the client is closed, and waits the computed delay before each attempt |
| `JobChain.JobHandler.CreateJobData` | internal/dbserver/handlers/job_create.go:89-122 | walks the request last to first; ends at the first job that does not parse or fails, with exactly the rows written up to there, or finishes with the request's ids and, for each job at its first position, a row that names the job after it and has status 0 only at the head |
| `JobChain.JobHandler.StoreJob` | internal/dbserver/handlers/job_create.go:100-231 | one job: no row for an id that does not parse or a failed creation, a row that stays when a later call fails |
| `JobChain.WrittenRow` | internal/dbserver/handlers/job_create.go:89-122 | the row of an id is the one of its first position in the request |
| `JobChain.ChainIff` | internal/dbserver/handlers/job_create.go:89-122 | the links lead through all jobs in request order and end after the last if and only if the ids are distinct |
| `JobChain.OnlyFirstIsHead` | internal/dbserver/handlers/job_create.go:90-95 | exactly the first job of a chain has chain status 0 |
| `JobChain.OthersUntouched` | internal/dbserver/handlers/job_create.go:222-231 | jobs outside the request keep their rows |
| `Leaderboard.BeforeIsStrictTotal` | internal/dbserver/repository/user_repository.go:196-211 | the four-level comparator is a strict order that decides between any two rows with different ids |
| `Leaderboard.BeforeMeans` | internal/dbserver/repository/user_repository.go:196-211 | more points come first, on equal points more of the first counter, then of the second, and on a full tie the lower id |
| `Leaderboard.GetLeaderboard` | internal/dbserver/repository/user_repository.go:176-214 | the board is a permutation of the rows in which points never rise, on equal points the first counter does not, then the second, and on a full tie ids do not fall |
| `Leaderboard.SortSlice` | internal/dbserver/repository/keeper_repository.go:224-242 | the sort used for all three boards yields a sorted permutation |
| `Leaderboard.RankedIsSortedPermutation` | internal/dbserver/repository/keeper_repository.go:202-286 | insertion by the comparator yields a sorted permutation for any rows |
| `Leaderboard.OrderIsCanonical` | internal/dbserver/repository/user_repository.go:196-213 | with distinct ids there is one sorted order only, so the board does not depend on the database's order |

## Left out

- EventWorker.Worker.PollEvents: requires a positive block range and block numbers that leave room for one more range below 2^64, because otherwise the loop never ends or starts over; `ChunkAdvances` says exactly when.
- ChainPoller.ChainPoller.PollOnce: requires block numbers that leave room for ten more blocks below 2^64, for the same reason.
- ChainPoller.ChainPoller.QueryAll: requires the same of block numbers. The context ends between queries, not during one; the checks between logs of one answer are not modelled.
- ChainPoller.ChainPoller.QuerySubscription: requires the same of block numbers.
- LogRefinement.FilesAreOneLog: requires clean-ups that can list, stat and remove, a clock that does not go back, and modification times ascending with the number; a maxAge in days is that many times 86400 seconds, and one Write reads the clock once.
- LogRefinement.FilesStayBounded: supposes that no file is kept open under a size that a failed stat missed; `SizeTrackedIff` says exactly when that happens.
- LogRotator.SequentialRotator.CleanupOldFiles: only files named exactly base.N.log with N >= 0 exist in the model; other names that the glob matches, the unused compress flag and 64-bit overflow of sizes are not modelled.
- RateLimiter.RateLimiter.GetRateLimitStatus: the store answers; malformed script replies and response headers are not modelled.
- TimeJobs.TimeJobRepository.GetTimeJobsByNextExecutionTimestamp: the job_data table, row fields that are only copied, and time zones are not modelled.
- TimeJobs.NoMissedSlot: supposes intervals of at most MAX_INTERVAL seconds, beyond which the nanosecond count wraps; `NextTimeIsOneIntervalOn` says exactly when. Like the other run theorems of TimeJobs it supposes polls that are not abandoned; TimeJobFaults is about those that are.
- KeeperUptime.UptimeBounds: supposes that updates of one row do not overlap and succeed; `OverlapBound`, `RunNeverFallsIff` and `RetryAddsDoubleCount` are about those that do not.
- KeeperUptime.UptimeWithinLifetime: supposes the same.
- KeeperOverlap.OverlapBound: a clock read before the check-in found counts nothing; the clock is read right after the row.
- KeeperUptime.DatabaseManager.UpdateKeeperHealth: address case and prefix handling, the remaining columns and the offline notification are not modelled.
- KeeperLiveness.ReachableStatesAgree: a database row is only its online flag here, set by the net effect of a retried update, as `OnlineFollowsSuccess` states; check-in retries appear one by one.
- EventService.EventMonitor.Register: one call after another; concurrent callers are the steps of `EventInterleaving`. Which workers run outside the table is in `EventRunning`; what a worker does with the logs it finds is not modelled here.
- EventInterleaving.RunBoundIff: chain ids hold no colon. A step may also stop any key's worker at any time, which is more than an unregistration does.
- EventRegistry.RegistryManager.Register: entries are values with an identity number; sharing of entry objects is not modelled beyond that number.
- StreamRuns.RunAgreesIff: additions get non-empty ids new to their stream. Each operation reads the clock once, and a key is gone from the moment of its deadline on. How many entries the store trims is left open (any set).
- StreamRuns.IndexAgrees: holds for runs without a breaking lapse or operation, so for streams that have lost the deadline they were created with or have yet to reach it; `LapseKeepsAgreementIff` and `RunAgreesIff` say exactly when.
- StreamLifetime.EntryLifetime: supposes that store calls succeed, nothing is trimmed, and the id is not used again. The set may be kept for any time at each addition: the task dispatcher, another process, keeps the dispatched stream's set for 48 hours (internal/taskdispatcher/tasks/task_add.go). Removal by the task timeout worker is not modelled.
- Hub.AccessDecidedIff: a character of the model stands for a byte of the room's name.
- Hub.WebSocketHub.BroadcastToRooms: full send buffers, closing of send channels, replies to the client and the initial-data callback are not modelled.
- Backoff.Retry: delays are exact reals; truncation to whole nanoseconds and overflow are not modelled.
- Backoff.Send: overflow of the shifted delay is not modelled; a post either gets a 2xx or does not, and the errors that end the call before any post (a body that cannot be encoded, a malformed URL) are not modelled.
- Backoff.ReconnectLoop: with unlimited retries some round must not fail, or the loop goes on for ever.
- Backoff.ReconnectDelayBounds: supposes base <= max and factor >= 1, and a jitter modulus that is not zero.
- JobChain.JobHandler.CreateJobData: the per-type job tables, script validation, the user's points and the final update of the user's job list are not modelled.
- Leaderboard.GetLeaderboard: points are reals, so NaN does not occur.
- Task timeouts, consumer groups and pending entries of the task streams: their central calls are declared elsewhere.
- Topic parsing and ABI decoding of the chain poller: byte copying with no state.
- HTTP and RPC handlers, cryptography, configuration, metrics and database plumbing.
