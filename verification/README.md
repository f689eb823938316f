# Verified models of the platform's stateful cores

This project models the parts of the platform whose correctness depends on whole runs rather than on
one call: the chunked ingest protocol, the gateway's rate limiters, the embedding cache, the circuit
breaker and the proxies around it, the distributed lock, the Redis work queue, the distribution
worker, the streaming reader, field normalisation, the prompt context, the WebSocket session index
and the attempt counter. `dafny verify dfyconfig.toml` checks all of it.

Code that updates objects in place is modelled as classes whose methods are proved against functions
on the abstract state; the promises are then proved of those functions, over every run. Where calls
of different processes interleave, a state machine has one step per atomic statement, with a step for
every way a call can fail, and the promise is an inductive invariant of that machine.

- **Ingest** (`ingest_jobs.dfy`, `ingest_protocol.dfy`). Uploads create a job row and enqueue chunks;
  any number of workers pop, process, report, check and complete. Any enqueue, payload, update, check
  or completion may fail. Counters are 32-bit, as in the row. A worker that dies is covered too:
  with a chunk in hand it acts like one whose payload or update fails, later like one whose check or
  completion fails.
- **Rate limiting** (`sliding_window.dfy`, `memory_limiter.dfy`, `redis_limiter.dfy`,
  `gateway_limits.dfy`). A reference limiter defined on histories; the in-process list and the Redis
  script, with its key expiry, each refine it; the gateway combines them while Redis may answer, fail
  before the script, or lose the answer after it, and any time may pass before the fallback decides.
- **Embedding cache** (`recency.dfy`, `lru_cache.dfy`). Sequence numbers refine a recency list, and
  the list refines "the most recently served distinct texts" for requests that overlap in any way.
- **Circuit breaker and proxies** (`circuit_breaker.dfy`, `proxies.dfy`). Two atomics refined to a
  history of outcomes, and the two three-attempt loops against references that only look at the first
  attempt that is not retried.
- **Lock and queue** (`distributed_lock.dfy`, `task_queue.dfy`). Mutual exclusion under expiry, lost
  replies and late releases; conservation and bounded redelivery.
- **Distribution worker** (`distribution_worker.dfy`). Retry state machine with back-off.
- **Text** (`sequences.dfy`, `text.dfy`, `decimal.dfy`, `dates.dfy`, `normalizer.dfy`, `stream_reader.dfy`,
  `context_builder.dfy`). Round trips, idempotence, independence of how a stream is cut.
- **Bookkeeping** (`ws_sessions.dfy`, `attempt_window.dfy`). The session index alone and under
  concurrent calls; the fixed-window counter.

The code and its documentation disagree in a few places; the models follow the code.

- `services/api-gateway/src/proxy/circuit_breaker.rs:7-9` promises a single probe, and re-opening after
  a failed probe. The open period is stamped once per trip (lines 64-69), so after it every call is let
  through until one succeeds: `CircuitBreakers.FailedProbesDoNotReopen`, `Proxies.DeadUpstream`.
- `services/distribution-service/src/processor/worker.rs:15` lists a back-off of 125 s. The third
  failure is final, so only 5 s and 25 s occur: `DistributionJobs.BackOff`.
- `services/api-gateway/src/middleware/rate_limit.rs:106` promises 10 operations per window. While
  Redis answers, the shared limiter's 100 applies (`GatewayLimits.OperationLimitIsTheSharedOne`);
  `GatewayLimits.TenOperationsExactly` says when the 10 do hold.
- `services/api-gateway/src/ws/manager.rs:9` promises 100 sessions per tenant. The count is read before
  the insertion, so k overlapping registrations allow 99 + k, and no more: `WsRace.RacyLimit`,
  `WsRace.RacyLimitAttained`, `WsRace.LimitHoldsExactly`.
- `services/ingest-service/src/pipeline/normalizer.rs:123` lists YYYY/MM/DD as supported. MM/DD/YYYY is
  tried first and accepts any year, so years up to 12 are read as months: `Dates.YmdSlashRoundTrip`
  gives the exact condition. For years above 9999, `Dates.DmyRoundTrip` and `Dates.YmdDashRoundTrip` do.

A fixed window is not a sliding one. The counter of `services/ai-service/src/state.rs` lets 5 attempts
pass per fixed window of 60 s; any 60 s may therefore see up to 9 pass, and no more
(`AttemptWindow.NineUnblocked`, `AttemptWindow.NineAttained`). `AttemptWindow.FiveExactly` says from which
entries 5 is the most.

## Model

| member | source | states |
|---|---|---|
| IngestProtocol.ConservationOverRuns | services/ingest-service/src/worker.rs:60-118 | on every interleaving of uploads and workers, with any calls failing, a row's counters are the sums over exactly the chunks whose progress update has run, `chunks_done` is their number, and no chunk is counted twice |
| IngestProtocol.NoEarlyCompletion | services/ingest-service/src/worker.rs:123-139 | a row leaves 'processing' only when `chunks_done = chunks_total` and every chunk of the upload has been counted; it is then completed iff nothing failed, failed iff something failed and nothing was processed, and a partial success otherwise |
| IngestProtocol.TerminalForever | services/ingest-service/src/jobs.rs:75-94 | once a row has left 'processing' it never changes again, however many workers still run `complete_job` |
| IngestProtocol.QuietMeansTerminal | services/ingest-service/src/worker.rs:99-139 | when no chunk of a job waits, is queued or is held, the job is terminal if and only if none of its chunks was lost and it has not been abandoned (finished, still 'processing', and a check or completion of it failed then) |
| IngestProtocol.TerminalStatusIsFinalize | services/ingest-service/src/worker.rs:99-104 | on every run a row's counters are the 32-bit casts of the true sums p, f of its counted chunks; a terminal status is what `finalize` gives (p, f), however the upload was cut and interleaved, if and only if f = 0, or f is no multiple of 2^32 and p is 0 or none |
| IngestProtocol.RunInv | services/ingest-service/src/worker.rs:27-118 | the protocol invariant (every chunk in one place, conservation, no early completion, no finished job forgotten) holds at every moment of every run |
| IngestProtocol.InvStep | services/ingest-service/src/jobs.rs:50-94 | each of the twelve steps, faults included, keeps that invariant |
| IngestProtocol.LogIsUpdates | services/ingest-service/src/jobs.rs:50-72 | the bookkeeping log is exactly the sequence of progress updates of the run |
| IngestProtocol.HeldKeepsOpen | services/ingest-service/src/worker.rs:123-130 | while a worker holds a chunk, the completion check of its job answers no |
| IngestProtocol.NoneForgottenStep | services/ingest-service/src/worker.rs:108-138 | a job all of whose chunks are counted always has a worker about to check or complete it, unless it is terminal or such a call failed |
| IngestProtocol.PassIsSteps | services/ingest-service/src/worker.rs:60-118 | an undisturbed pass of a worker is a sequence of machine steps and changes the row as `ProcessChunk` does |
| IngestJobs.IngestResult.Finalize | services/ingest-service/src/models/mod.rs:186-197 | completed iff nothing failed, partial success iff both counters are positive, failed iff only failures were counted; the duration; counters and lists unchanged |
| IngestJobs.ProcessBatch | services/ingest-service/src/processor.rs:70-180 | processed is the number of accepted replies, every other record is failed and has one error, and the status is that of the counters |
| IngestJobs.BatchIdsAndErrors | services/ingest-service/src/processor.rs:125-166 | the ids are those of the accepted replies that carry one, in order and all of them, and the errors those of the refused replies |
| IngestJobs.ProcessBatchBulk | services/ingest-service/src/processor.rs:193-286 | processed is the number of ids that come back and parse, failed the number the answer names or 0, an unreadable accepted body counts nothing, a refusal fails all records; exactly when the result is a partial success or failed |
| IngestJobs.ParsedIds | services/ingest-service/src/processor.rs:240-248 | the ids kept are those that parse, in order and all of them |
| IngestJobs.JobTable.CreateJobPending | services/ingest-service/src/jobs.rs:12-46 | adds one 'processing' row with zero counters and leaves the other rows alone |
| IngestJobs.JobTable.UpdateJobProgress | services/ingest-service/src/jobs.rs:50-72 | adds both counts and bumps `chunks_done` of one row, or fails and changes nothing when a 32-bit sum overflows; a missing row is no error |
| IngestJobs.JobTable.ChunksAllDone | services/ingest-service/src/worker.rs:124-130 | yes or no for an existing row, none for a missing one |
| IngestJobs.JobTable.CompleteJob | services/ingest-service/src/jobs.rs:75-94 | writes the status the row's own counters call for and nothing else |
| IngestJobs.MaybeCompleteJob | services/ingest-service/src/worker.rs:123-139 | completes the job exactly when its row says all chunks are done |
| IngestJobs.ProcessChunk | services/ingest-service/src/worker.rs:77-118 | the effect of a whole pass on the job table, failed bulk calls counting all records as failed |
| IngestJobs.CastStatusExact | services/ingest-service/src/worker.rs:102-103 | the status of two cast counts is that of the counts themselves if and only if the casts turn no nonzero count that matters into 0 |
| SlidingWindow.WindowBound | services/api-gateway/src/middleware/rate_limit.rs:86-92 | under a clock that never goes back, no half-open interval one window long holds more admissions of a key than the largest limit its requests carry |
| SlidingWindow.RejectsOnlyAtTheLimit | services/api-gateway/src/middleware/rate_limit.rs:88-90 | a request is throttled if and only if exactly `limit` admissions of its key lie less than one window in the past |
| SlidingWindow.BurstAdmitted | shared/redis/src/rate_limiter.rs:48-58 | the bound is attained: of any simultaneous burst exactly the first `limit` requests are admitted |
| MemoryLimiter.InMemoryRateLimiter.Check | services/api-gateway/src/middleware/rate_limit.rs:83-92 | retain and push on one key's list, other keys unchanged, and the decision |
| MemoryLimiter.HoldsLiveAdmissions | services/api-gateway/src/middleware/rate_limit.rs:84-86 | after any run the list of a key holds exactly the admissions of that key still in the window, in order |
| MemoryLimiter.MemoryRefinesReference | services/api-gateway/src/middleware/rate_limit.rs:83-95 | the in-process limiter decides every request of every run as the reference does |
| RedisLimiter.RedisRateLimiter.Check | shared/redis/src/rate_limiter.rs:34-82 | one script call: new sorted set and expiry of the client's key, other keys unchanged, and the decision |
| RedisLimiter.RedisRateLimiter.Remaining | shared/redis/src/rate_limiter.rs:111-133 | two commands with other requests in between: the pruning with a cutoff that saturates at the epoch, and the budget left by what the count then finds, a failed count reading as 0 |
| RedisLimiter.ExpiryHidesOnlyDead | shared/redis/src/rate_limiter.rs:55-56 | on every run, a stored set always has an expiry, and what expiry hides is at least one window old |
| RedisLimiter.ExpiresOneWindowAfterLast | shared/redis/src/rate_limiter.rs:55-56 | on every run a stored set expires exactly one window after the last admission of its key |
| RedisLimiter.CountsLiveAdmissions | shared/redis/src/rate_limiter.rs:46-48 | the members still in the window always number exactly the live admissions of the key |
| RedisLimiter.LuaRefinesReference | shared/redis/src/rate_limiter.rs:37-59 | the script decides every request of every run as the reference does, budget queries in between |
| RedisLimiter.RemainingAgreesWithCheck | shared/redis/src/rate_limiter.rs:111-133 | from one window after the epoch on, for any stored set, the budget is positive if and only if a check at that instant would admit |
| RedisLimiter.RemainingAgreesExactly | shared/redis/src/rate_limiter.rs:116 | query and check agree on all sets a run can leave if and only if the clock is past one window or the limit is 0 |
| RedisLimiter.RemainingIsFurtherAdmissions | shared/redis/src/rate_limiter.rs:111-133 | from one window after the epoch on, the budget is exactly the number of further requests that would be admitted at that instant |
| GatewayLimits.Gateway.Admit | services/api-gateway/src/middleware/rate_limit.rs:71-92 | Redis first; when its call fails, with or without the script having run, and after whatever other requests do meanwhile, the in-process limiter at its own later clock reading; the new state of both |
| GatewayLimits.Gateway.RateLimit | services/api-gateway/src/middleware/rate_limit.rs:64-96 | the same keyed by client address, with the fallback limit of 100 |
| GatewayLimits.Gateway.OperationCost | services/api-gateway/src/middleware/rate_limit.rs:108-163 | the same keyed by caller under `op:`, with the fallback limit of 10 |
| GatewayLimits.HealthyIsDecidedByRedis | services/api-gateway/src/middleware/rate_limit.rs:72-76 | after any timely run, a request that Redis answers is let through iff fewer than the Redis limit of its key's recorded requests lie less than one window in the past; it is recorded in Redis and leaves the fallback alone |
| GatewayLimits.NeverRanIsDecidedByFallback | services/api-gateway/src/middleware/rate_limit.rs:72-92 | a request whose script never ran adds nothing to Redis and is let through iff fewer than its own limit of the fallback's records lie less than one window in the past |
| GatewayLimits.LostReplyIsDecidedByFallback | services/api-gateway/src/middleware/rate_limit.rs:76-92 | a request whose answer is lost adds exactly its one record to Redis and is decided by the fallback in the same way |
| GatewayLimits.Gateway.constructor | services/api-gateway/src/main.rs:274-279 | the configured Redis limiter, 100 per 60 s, and an empty fallback |
| GatewayLimits.DecisionsRefine | services/api-gateway/src/middleware/rate_limit.rs:71-95 | on every run of answers, unanswered script runs and fallbacks, each limiter on a clock of its own, every decision is the reference decision on what that limiter has seen |
| GatewayLimits.AdmissionsAreCharged | services/api-gateway/src/middleware/rate_limit.rs:71-81 | in any interval, the requests let through on an answer are at most those the script recorded |
| GatewayLimits.FallbackRecordsItsOwn | services/api-gateway/src/middleware/rate_limit.rs:82-95 | the requests let through by the fallback are exactly those its list recorded |
| GatewayLimits.FailoverBound | services/api-gateway/src/middleware/rate_limit.rs:71-95 | with Redis failing at arbitrary moments and for arbitrarily long, also after the script has run, a key is let through at most redis limit + fallback limit times in any window, wherever the window begins on either clock |
| GatewayLimits.FailoverAttained | services/api-gateway/src/middleware/rate_limit.rs:71-95 | that bound is tight: for all limits some run lets exactly that many through in one instant |
| GatewayLimits.ClientBound | services/api-gateway/src/main.rs:274-279 | as configured, a client is let through at most 200 times in any minute |
| GatewayLimits.OperationBound | services/api-gateway/src/middleware/rate_limit.rs:122-162 | as configured, one caller's operations are let through at most 110 times in any minute |
| GatewayLimits.ConfiguredBoundsAttained | services/api-gateway/src/middleware/rate_limit.rs:18-24 | both configured bounds are attained: 200 and 110 |
| GatewayLimits.OwnLimitKeptExactly | services/api-gateway/src/middleware/rate_limit.rs:108-163 | for all limits, a middleware keeps its own limit on all runs if and only if Redis never answers or has no room at all |
| GatewayLimits.TenOperationsExactly | services/api-gateway/src/middleware/rate_limit.rs:103-107 | the documented 10 operations per window hold on all runs if and only if Redis never answers |
| GatewayLimits.OperationLimitIsTheSharedOne | services/api-gateway/src/middleware/rate_limit.rs:122-126 | while Redis answers, exactly the first 100 of any burst of operation calls are let through |
| GatewayLimits.LimitersAgree | shared/redis/src/rate_limiter.rs:37-59 | script and in-process list give the same decision on every request of every timed run |
| LruCache.LruEmbeddingCache.Get | services/ai-service/src/embeddings/encoder.rs:36-44 | a hit returns the stored embedding and moves the text to the front; a miss changes nothing |
| LruCache.LruEmbeddingCache.LeastRecent | services/ai-service/src/embeddings/encoder.rs:49-51 | the entry with the smallest sequence number is the last of the recency list |
| LruCache.LruEmbeddingCache.MakeRoom | services/ai-service/src/embeddings/encoder.rs:47-56 | evicts the least recent text exactly when a new text finds the cache full, and keeps every other entry |
| LruCache.LruEmbeddingCache.Insert | services/ai-service/src/embeddings/encoder.rs:46-59 | the new text comes first, the list is cut to the capacity, the kept embeddings are unchanged |
| LruCache.Encoder.Encode | services/ai-service/src/embeddings/encoder.rs:104-128 | blank texts, hits, failed and successful misses, with any sections of other requests between lookup and insertion: answer and new contents |
| LruCache.HoldsMostRecent | services/ai-service/src/embeddings/encoder.rs:36-59 | after any interleaving of the locked sections of overlapping requests the cache is the first `capacity` entries of the recency list of the texts served (capacity 0 acts as 1) |
| LruCache.CachedIffRecent | services/ai-service/src/embeddings/encoder.rs:36-59 | a text is cached if and only if it was served and fewer than `capacity` distinct texts were served since; the size is min(capacity, distinct texts served) |
| LruCache.EmbeddingsAreOwn | services/ai-service/src/embeddings/encoder.rs:104-128 | every embedding in the cache is that of its own text, however requests overlap |
| LruCache.AnswersAreOwn | services/ai-service/src/embeddings/encoder.rs:104-128 | so is every embedding a request is answered with, and a non-blank text gets no embedding only when it was not cached and the service failed |
| LruCache.BlankIsAnsweredEmpty | services/ai-service/src/embeddings/encoder.rs:105-107 | a text of white space alone is answered with an empty embedding and changes nothing |
| LruCache.RequestIsSections | services/ai-service/src/embeddings/encoder.rs:104-128 | a request is its lookup, what others do meanwhile, and its insertion |
| LruCache.CachesNested | services/ai-service/src/embeddings/encoder.rs:46-59 | on the same requests, answered or failed, the smaller cache's recency list is contained in the larger one's, and is full unless they are equal |
| LruCache.SmallerIsIncluded | services/ai-service/src/embeddings/encoder.rs:46-59 | on the same requests, answered or failed, a smaller cache never holds a text a larger one has lost |
| LruCache.RankStep | services/ai-service/src/embeddings/encoder.rs:57-58 | giving a text the next sequence number keeps numbers distinct, at most `counter`, and in the order of the recency list |
| Recency.RecencyIsStackDistance | services/ai-service/src/embeddings/encoder.rs:14-18 | the texts before a key in the recency list are exactly the distinct ones used since its last use |
| Recency.SinceMeans | services/ai-service/src/embeddings/encoder.rs:14-18 | the distinct keys since a key's last use are those used after which it is not used any more |
| Recency.UsedKeepsNested | services/ai-service/src/embeddings/encoder.rs:36-59 | one use of a key, fetched or not, keeps two recency lists of different room nested |
| Recency.TakeOfTouch | services/ai-service/src/embeddings/encoder.rs:46-59 | touching a key commutes with cutting the list to its capacity |
| CircuitBreakers.CircuitBreaker.IsOpen | services/api-gateway/src/proxy/circuit_breaker.rs:41-51 | open exactly when the threshold is reached, a trip is stamped and the open duration has not passed |
| CircuitBreakers.CircuitBreaker.RecordSuccess | services/api-gateway/src/proxy/circuit_breaker.rs:54-57 | both atomics reset |
| CircuitBreakers.CircuitBreaker.RecordFailure | services/api-gateway/src/proxy/circuit_breaker.rs:60-71 | one more failure, and the trip stamped only when none is |
| CircuitBreakers.RefinesHistory | services/api-gateway/src/proxy/circuit_breaker.rs:54-71 | for every threshold and clock, the counter is the number of failures since the last success and `opened_at` the trip among them |
| CircuitBreakers.OpenIffTripped | services/api-gateway/src/proxy/circuit_breaker.rs:41-71 | with a running clock, open at t if and only if the threshold-th failure since the last success exists and t is less than the open duration after it |
| CircuitBreakers.FailedProbesDoNotReopen | services/api-gateway/src/proxy/circuit_breaker.rs:62-69 | after a trip, any failing probes leave the end of the open period where the trip put it |
| Proxies.ProxyMdmPost | services/api-gateway/src/proxy/mdm_proxy.rs:38-112 | breaker, result and number of sends are those of the reference outcome, and the final `expect` cannot fail |
| Proxies.ProxyAiRequest | services/api-gateway/src/proxy/ai_proxy.rs:29-99 | the same for the AI service, whose loop always returns from inside |
| Proxies.OpenBreakerRefuses | services/api-gateway/src/proxy/ai_proxy.rs:30-36 | an open breaker answers 503 without sending, and is unchanged, for both proxies |
| Proxies.RetriesExactly | services/api-gateway/src/proxy/mdm_proxy.rs:80-96 | retried are exactly network errors and the statuses 500 to 599 |
| Proxies.MdmCallEndsOneOfTwoWays | services/api-gateway/src/proxy/mdm_proxy.rs:49-111 | a call past the breaker sends 1 to 3 times; it ends at the first reply that is not retried, passed on with the breaker reset, or fails three times, adds exactly 3 and ends with the last reply or error |
| Proxies.AiCallEndsOneOfThreeWays | services/api-gateway/src/proxy/ai_proxy.rs:40-99 | the same for the AI service: a 2xx resets the breaker and passes its JSON on or is refused with 502; another final reply is refused with its code and records nothing; three failures add exactly 3 and are refused with the last code or 502 |
| Proxies.ClientErrorsDiffer | services/api-gateway/src/proxy/ai_proxy.rs:75-89 | on a 4xx one proxy resets the breaker and the other leaves it as it is |
| Proxies.FailedAllExtendsHistory | services/api-gateway/src/proxy/circuit_breaker.rs:60-71 | a run of failed attempts extends the breaker's history by as many failures |
| Proxies.DeadUpstream | services/api-gateway/src/proxy/mdm_proxy.rs:38-112 | against a dead upstream exactly the first ceil(threshold / 3) calls send, three times each, then none until the open duration has passed since the trip, then every one again |
| Proxies.SixSends | services/api-gateway/src/main.rs:315-316 | as configured: six sends, then none within 30 s of the fifth failure |
| DistributedLocks.Redis.SetNxPx | shared/redis/src/distributed_lock.rs:103-114 | sets the key with its expiry exactly when no live value is there |
| DistributedLocks.DistributedLock.Acquire | shared/redis/src/distributed_lock.rs:93-133 | at most retry_count + 1 attempts; every one before the last did not acquire; the guard, or none after the last attempt or when no connection could be had; lost replies count as refusals |
| DistributedLocks.DistributedLock.LockKeyInjective | shared/redis/src/distributed_lock.rs:167-169 | different resources have different keys |
| DistributedLocks.DistributedLock.TryAcquire | shared/redis/src/distributed_lock.rs:136-165 | one attempt, whichever way its command goes: guard, none, or an error exactly when there was no connection |
| DistributedLocks.DistributedLock.Release | shared/redis/src/distributed_lock.rs:26-47 | deletes the key exactly when it is live and holds this guard's token, and says which |
| DistributedLocks.RunInv | shared/redis/src/distributed_lock.rs:26-165 | on every run with fresh tokens, the server stores the lease of every unexpired guard |
| DistributedLocks.MutualExclusion | shared/redis/src/distributed_lock.rs:26-165 | at every moment at most one guard of a resource has an unexpired lease, and the stored token is that guard's |
| DistributedLocks.ReleaseOnlyOwn | shared/redis/src/distributed_lock.rs:27-33 | releasing any other guard, expired or not, leaves the holder's lock in place; releasing its own frees the resource |
| DistributedLocks.NoSecondHolder | shared/redis/src/distributed_lock.rs:103-126 | while a lease runs, no attempt on its resource changes anything, answered or not |
| DistributedLocks.ExpiredLeaseIsTaken | shared/redis/src/distributed_lock.rs:103-114 | once the server's clock has reached a lease's end, the next attempt gets the lock for its own lease, whoever held it |
| TaskQueues.TaskQueue.Enqueue | shared/redis/src/queue.rs:76-87 | adds the member to one queue, others unchanged |
| TaskQueues.TaskQueue.FindTop | shared/redis/src/queue.rs:94-95 | the member that a pop from the top yields: highest priority, then highest id |
| TaskQueues.TaskQueue.Dequeue | shared/redis/src/queue.rs:90-105 | none exactly on an empty queue, otherwise the top, removed |
| TaskQueues.TaskQueue.DequeueBatch | shared/redis/src/queue.rs:108-124 | the highest members, in order, as many as asked for and there are, and only they removed |
| TaskQueues.TaskQueue.DeadLetter | shared/redis/src/queue.rs:135-150 | one more attempt, back to the queue while attempts are left, otherwise to the dead-letter queue |
| TaskQueues.BatchIsSuccessive | shared/redis/src/queue.rs:90-124 | a batch of n is exactly what n successive single dequeues give, in both directions |
| TaskQueues.TopIsHighest | shared/redis/src/queue.rs:81-95 | what is popped has the highest priority there is, and among those the highest id |
| TaskQueues.DrainOrdered | shared/redis/src/queue.rs:81-95 | draining yields every member once, in non-increasing priority |
| TaskQueues.TasksConserved | shared/redis/src/queue.rs:76-150 | on every run each submitted id that was not lost by a dying worker, a lost reply or a failed re-enqueue is in exactly one of queue, worker, finished and dead-letter queue, and there only once |
| TaskQueues.RedeliveryBounded | shared/redis/src/queue.rs:135-150 | handed out at most max_attempts times (once when that is 0), dead-lettered only after exactly that many failures and otherwise unchanged |
| TaskQueues.QueueHasTop | shared/redis/src/queue.rs:94-95 | a queue never holds two members of one id, so a pop from a queue that is not empty has exactly one possible answer |
| TaskQueues.StepsAreCalls | shared/redis/src/queue.rs:76-150 | the steps of the run model leave in the queue and its dead-letter queue what the methods' contracts say |
| TaskQueues.InvStep | shared/redis/src/queue.rs:76-150 | submitting, taking, finishing, losing, retrying and dead-lettering keep the placement and attempt counts |
| DistributionJobs.DistributionWorker.FetchBatch | services/distribution-service/src/processor/worker.rs:42-60 | the oldest eligible rows, at most 50, in order, and none older left out |
| DistributionJobs.DueJobIsFetched | services/distribution-service/src/processor/worker.rs:50-54 | only due jobs are fetched, and a due job is unless 50 older due ones fill the batch |
| DistributionJobs.DistributionWorker.MarkCompleted | services/distribution-service/src/processor/worker.rs:103-110 | one row completed, its attempts kept, others unchanged |
| DistributionJobs.DistributionWorker.MarkFailed | services/distribution-service/src/processor/worker.rs:112-133 | one more attempt and either final failure or a retry after 5^attempts seconds |
| DistributionJobs.DistributionWorker.ExecuteJob | services/distribution-service/src/processor/worker.rs:76-101 | the row after each outcome, and unchanged when the write is lost |
| DistributionJobs.DistributionWorker.ProcessBatch | services/distribution-service/src/processor/worker.rs:38-73 | a poll executes exactly the fetched rows, once each, and every one is still eligible when its turn comes |
| DistributionJobs.AtMostThreeSends | services/distribution-service/src/processor/worker.rs:38-133 | a job is sent at most three times plus once per lost write; a pending job always has attempts left and becomes eligible |
| DistributionJobs.TerminalForever | services/distribution-service/src/processor/worker.rs:50-52 | completed and failed jobs are neither executed nor changed again |
| DistributionJobs.BackOff | services/distribution-service/src/processor/worker.rs:113-124 | the retry after the first failure waits at least 5 s, after the second at least 25 s, and there is no other |
| DistributionJobs.DrainsInThreePerJob | services/distribution-service/src/processor/worker.rs:38-133 | n jobs take at most 3n recorded executions, and after 3n none is pending |
| DistributionJobs.WorkStep | services/distribution-service/src/processor/worker.rs:112-133 | every recorded execution lowers the sum of attempts left over pending jobs |
| DistributionJobs.RowsOk | services/distribution-service/src/processor/worker.rs:103-133 | a row's status, attempts and next attempt time follow from the executions of its job so far |
| StreamReader.ReadStream | services/ai-service/src/llm/client.rs:196-234 | the items sent are those the whole stream means, up to where the receiver stops taking them |
| StreamReader.DrainLines | services/ai-service/src/llm/client.rs:210-230 | the inner loop ends, and leaves no complete line in the buffer unless reading is over |
| StreamReader.CutsDoNotMatter | services/ai-service/src/llm/client.rs:198-213 | cutting any chunk of the stream in two changes nothing |
| StreamReader.MeaningIsTexts | services/ai-service/src/llm/client.rs:214-228 | what a stream means are, in order and unchanged, exactly the non-empty texts of its lines up to and including the first done one, and an error after them iff the stream breaks and no line is done |
| StreamReader.LinesSplit | services/ai-service/src/llm/client.rs:208-215 | the lines of a concatenation are those of the first part, then those its leftover begins |
| StreamReader.LinesMakeUpText | services/ai-service/src/llm/client.rs:211-215 | the lines with their newlines and the leftover make up the text |
| StreamReader.LinesHaveNoNewline | services/ai-service/src/llm/client.rs:211-215 | no line and no leftover has a newline in it |
| StreamReader.FindsFirst | services/ai-service/src/llm/client.rs:211 | the search finds the first newline, or none |
| Dates.MdyRoundTrip | services/ingest-service/src/pipeline/normalizer.rs:145-155 | every valid date printed MM/DD/YYYY reads back as its canonical form |
| Dates.PaddedDate | services/ingest-service/src/pipeline/normalizer.rs:126 | white space around a date does not matter |
| Dates.SlashDates | services/ingest-service/src/pipeline/normalizer.rs:145-179 | what three numerals between slashes, padded in any way, are read as |
| Dates.DashDates | services/ingest-service/src/pipeline/normalizer.rs:157-191 | what three numerals between dashes, padded in any way, are read as |
| Dates.DmyRoundTrip | services/ingest-service/src/pipeline/normalizer.rs:157-167 | DD-MM-YYYY reads back if and only if the year has at most four digits |
| Dates.YmdSlashRoundTrip | services/ingest-service/src/pipeline/normalizer.rs:169-179 | YYYY/MM/DD reads back if and only if 13 <= year <= 9999 or year, month and day are equal |
| Dates.YmdDashRoundTrip | services/ingest-service/src/pipeline/normalizer.rs:181-191 | the canonical form reads back as itself up to year 9999, and not at all beyond |
| Dates.NormalizedIsCanonical | services/ingest-service/src/pipeline/normalizer.rs:125-143 | whatever the normaliser returns is the canonical form of a date that passes validation |
| Dates.DateIdempotent | services/ingest-service/src/pipeline/normalizer.rs:59-61 | the date transform is idempotent on every ASCII string |
| Decimal.PadParses | services/ingest-service/src/pipeline/normalizer.rs:151-153 | zero-padded numerals parse back within the 32-bit ranges |
| Decimal.ParseU32Exactly | services/ingest-service/src/pipeline/normalizer.rs:151-152 | an unsigned numeral is read iff it is digits, perhaps after a plus sign, in range |
| Decimal.ParseI32Exactly | services/ingest-service/src/pipeline/normalizer.rs:153 | the same with a sign, which a minus makes count |
| Decimal.PadLength | services/ingest-service/src/pipeline/normalizer.rs:197 | a padded numeral has exactly its width if and only if the number fits it |
| Normalizer.NormalizeRecord | services/ingest-service/src/pipeline/normalizer.rs:22-39 | the record after each mapping in turn |
| Normalizer.FieldByField | services/ingest-service/src/pipeline/normalizer.rs:22-39 | with distinct targets, every field is transformed once, by its own mapping, and no field appears or vanishes |
| Normalizer.OthersUnchanged | services/ingest-service/src/pipeline/normalizer.rs:19-39 | fields that no transforming mapping targets, and values that are no strings, stay as they are |
| Normalizer.NormalizeIdempotent | services/ingest-service/src/pipeline/normalizer.rs:22-39 | with distinct targets, normalising a record twice is normalising it once, for all seven transforms |
| Normalizer.NormalizeOrderIrrelevant | services/ingest-service/src/pipeline/normalizer.rs:22-39 | with distinct targets, the order of the mappings does not matter |
| Normalizer.OrderMattersOnOneField | services/ingest-service/src/pipeline/normalizer.rs:27-36 | with two mappings on one field it can: lower and upper case in the two orders give different records if and only if the text has an ASCII letter |
| Normalizer.TransformIdempotent | services/ingest-service/src/pipeline/normalizer.rs:45-68 | each of the seven transforms is idempotent on every ASCII string |
| Normalizer.CasesYield | services/ingest-service/src/pipeline/normalizer.rs:53-54 | lower and upper case shift letters by 32, character by character, and nothing else |
| Normalizer.StripsYield | services/ingest-service/src/pipeline/normalizer.rs:56-58 | stripping takes off outer white space and nothing else; an e-mail address is stripped, then lower-cased |
| Normalizer.PhoneYields | services/ingest-service/src/pipeline/normalizer.rs:103-111 | a plus sign and the digits, after a 1 iff there are exactly ten; without digits the text stays |
| Normalizer.DigitsAt | services/ingest-service/src/pipeline/normalizer.rs:104 | the digits are those of the text, in order and all of them |
| Normalizer.DateYields | services/ingest-service/src/pipeline/normalizer.rs:59-61 | a readable date becomes its canonical form, anything else stays |
| Normalizer.WordsFound | services/ingest-service/src/pipeline/normalizer.rs:83 | splitting finds the words of a text, all of them, whole and in order |
| Normalizer.TitleCaseYields | services/ingest-service/src/pipeline/normalizer.rs:82-95 | title case keeps the words and their order, gives each an upper-case first letter and leaves one blank between them |
| Normalizer.PhoneIdempotent | services/ingest-service/src/pipeline/normalizer.rs:103-111 | a normalised phone number normalises to itself, on every string |
| Normalizer.TitleCaseIdempotent | services/ingest-service/src/pipeline/normalizer.rs:82-95 | splitting, capitalising and joining again changes nothing the second time |
| Normalizer.EmailIdempotent | services/ingest-service/src/pipeline/normalizer.rs:114-116 | trimming and lower-casing again changes nothing |
| Text.TrimIdempotent | services/ingest-service/src/pipeline/normalizer.rs:56 | trimming leaves no outer white space and fixes exactly the trimmed texts |
| Text.TrimTakesSpaceOff | services/ingest-service/src/pipeline/normalizer.rs:56 | trimming takes off white space at both ends, all of it and nothing else |
| Text.TrimPadded | services/ingest-service/src/pipeline/normalizer.rs:126 | white space around a text does not change what it trims to |
| Text.SpacesAre | services/ingest-service/src/pipeline/normalizer.rs:56 | white space in ASCII is the blank and the characters 9 to 13 |
| ContextBuilder.FormatContext | services/ai-service/src/rag/retriever.rs:232-260 | the sections that fit the budget, joined; a fixed text when there are no documents |
| ContextBuilder.ContextIsBoundedPrefix | services/ai-service/src/rag/retriever.rs:239-259 | the emitted sections put end to end are the first max_context_chars of all headers and truncated contents; joined they are at most 7 (n - 1) longer; all but the last are whole |
| ContextBuilder.ContextLayout | services/ai-service/src/rag/retriever.rs:239-259 | the i-th emitted section is that of the i-th document and stands in the context at its offset, with the separator after each but the last, which ends the context |
| ContextBuilder.JoinedInOrder | services/ai-service/src/rag/retriever.rs:259 | joining keeps any parts whole and in order, with the separator after each but the last |
| ContextBuilder.SectionText | services/ai-service/src/rag/retriever.rs:246-252 | a section is its number, then the title, then the type in brackets, a line break, and the first max_doc_chars characters of the content |
| ContextBuilder.FittingIsPrefix | services/ai-service/src/rag/retriever.rs:253-256 | for any sections and budget, what is emitted is the budgeted prefix of their concatenation |
| ContextBuilder.OnlyLastIsCut | services/ai-service/src/rag/retriever.rs:254 | every emitted section but the last is whole, and the last is a prefix |
| WsSessions.WsManager.Register | services/api-gateway/src/ws/manager.rs:28-49 | refused exactly at 100; otherwise in both maps; agreement of the maps and the limit are kept |
| WsSessions.WsManager.Unregister | services/api-gateway/src/ws/manager.rs:51-56 | gone from both maps, others unchanged; agreement and limit are kept |
| WsSessions.WsManager.BroadcastToTenant | services/api-gateway/src/ws/manager.rs:59-67 | each connected session of the tenant gets the message exactly once, and no other does |
| WsRace.RegisterIsSteps | services/api-gateway/src/ws/manager.rs:28-49 | a registration with no other call in between is its three steps, and does what `Register` does |
| WsRace.UnregisterIsSteps | services/api-gateway/src/ws/manager.rs:51-56 | a removal with no other call in between is its two steps, and does what `Unregister` does |
| WsRace.RunInv | services/api-gateway/src/ws/manager.rs:28-56 | what interleaved registrations and removals keep of the two maps, on every run |
| WsRace.QuietMapsAgree | services/api-gateway/src/ws/manager.rs:28-56 | whenever no call is under way, the tenant sets are disjoint and their union is the client map's keys |
| WsRace.RacyLimit | services/api-gateway/src/ws/manager.rs:29-48 | with at most k registrations of a tenant in flight, it never has more than 99 + k sessions |
| WsRace.RacyLimitAttained | services/api-gateway/src/ws/manager.rs:29-48 | for every k >= 1 some run reaches 99 + k |
| WsRace.LimitHoldsExactly | services/api-gateway/src/ws/manager.rs:9-11 | the limit of 100 holds on all runs with at most k registrations in flight if and only if k <= 1 |
| AttemptWindow.AppState.RecordInjectionAttempt | services/ai-service/src/state.rs:38-48 | the new entry of the key, others unchanged, and the verdict |
| AttemptWindow.NineUnblocked | services/ai-service/src/state.rs:38-48 | at most nine attempts of a key pass unblocked in any closed 60 s interval |
| AttemptWindow.NineAttained | services/ai-service/src/state.rs:38-48 | some run reaches nine |
| AttemptWindow.FiveExactly | services/ai-service/src/state.rs:38-48 | no continuation lets more than five attempts of a key pass in the 60 s from an instant if and only if the key's entry then is missing, expired or used up |
| AttemptWindow.BlockedOnlyOverTheLimit | services/ai-service/src/state.rs:38-48 | a blocked attempt is at least the sixth of its key in the 60 s ending with it |
| AttemptWindow.KeyAccounted | services/ai-service/src/state.rs:38-48 | after any run, a key's entry bounds the attempts it has let through in any interval |

## Left out

- HTTP routing, headers, request bodies, settings, metrics, logging and sleeps; SQL text, JSON parsing and network clients appear only as the replies they give.
- Authentication, tenants, roles, licences, encryption and prompt sanitising.
- Outside the lock, a call that gets no connection from a pool is not told apart from one that never ran.
- StreamReader.DrainLines: the source has this loop inside its outer loop; it is a method of its own here so that each loop has its own contract. JSON parsing is a parameter, and the bytes are ASCII.
- Workers that stop for ever while holding a chunk, and clients that never call again: safety holds on all runs, but nothing is claimed about steps that are never taken.
- Nothing in the service repeats a failed check or completion, so an abandoned job (see `IngestProtocol.QuietMeansTerminal`) that no other worker completes stays 'processing'.
- LruCache.SmallerIsIncluded: requests that do not overlap; overlapping ones insert in an order that depends on which of them hit, so the two caches would not see the same sections. Embeddings are sequences of reals.
- GatewayLimits.FailoverBound: one gateway process, since the in-process lists of several would add up; Redis loses no data; clocks that go back.
- TaskQueues.TasksConserved: a worker that dies loses its entry, as does a pop whose reply is lost and a `dead_letter` whose enqueue fails, and nothing takes such an entry back; the model calls it lost. Stored members are those the queue itself wrote, so they always parse. Members of equal priority are ordered by id, the first field of their serialised form; text order of ids is the order of natural numbers here.
- AttemptWindow.NineUnblocked: the 32-bit counter does not wrap; instants are in nanoseconds.
- `completed_at` and `duration_ms` of job rows, error texts, entity building and schema mapping.
- CircuitBreakers.RefinesHistory: calls on a breaker run one after the other; interleavings of its two relaxed atomics are not modelled, nor is the wrap of its 64-bit counter.
- DistributedLocks.MutualExclusion: leases are measured on the server's clock, on one primary that loses no key; the drift of a client's own clock is not modelled.
- DistributionJobs.AtMostThreeSends: one worker. With several, the row locks end with the fetching statement, so two workers can fetch the same row. Rows without a connector row, and columns that fail to decode, are not modelled.
- Normalizer.TransformIdempotent: ASCII only; Unicode case mapping and white space are not modelled.
- ContextBuilder.FormatContext: ASCII only; the source slices by bytes and would panic inside a longer character.
- WsSessions.WsManager.Register: cloned managers, whose maps are copies, are not modelled, and a session is registered once.
- The entity cache, session store, retry helper, enrichment generators and the other services, which hold no property of this kind.
