# Verified models of the integration service's stateful protocols

This project models, in Dafny 4.11, the parts of the AgentForge integrations service and its client
library whose correctness depends on state that several callers, tasks or requests share, and proves what
holds in every run. `dafny verify dfyconfig.toml` checks everything.

| file | models |
|---|---|
| Basics.dfy | shared definitions |
| WebhookEngine.dfy, WebhookLog.dfy, WebhookDraining.dfy, WebhookRecipients.dfy, WebhookDeliveries.dfy | outbound webhook delivery: dispatch, retry and dead-letter passes over the event, subscription and delivery tables |
| ConcurrentDeliveries.dfy | the same delivery split into read, post and commit by concurrent workers |
| WebhookDedup.dfy, RedisLock.dfy | the Redis SET-NX-EX protocols: inbound deduplication and the distributed lock |
| OAuthManager.dfy | the OAuth service over a transactional session |
| OAuthFlows.dfy, OAuthStates.dfy, OAuthOverlaps.dfy, OAuthSequential.dfy | OAuth flows under every interleaving, the life of one state, what overlaps lose or bring back, and sequential runs |
| ActionExecution.dfy | action execution with one transparent token refresh |
| CircuitBreaker.dfy, ProviderRequest.dfy, ProviderOutcomes.dfy | the circuit breaker, its composition with the bounded retry in the provider request helper, and the same in terms of recorded outcomes |
| RateLimiter.dfy | the client library's token-bucket limiter |
| TokenCache.dfy | the client library's OAuth2 token cache with double-checked locking |
| Backoff.dfy | the client library's retry decorator |
| KeyRotation.dfy | encrypted credentials under key rotation |

## How the models are built

- What the source changes in place is a class whose methods update its fields; each method's contract ties
  the new fields to a specification function of the old ones. Invariants, bounds and equivalences are
  lemmas about runs of these functions: sequences of steps of any length.
- Concurrency is a machine whose steps are the sections between suspension points: a lock's critical
  section, a database transaction, the wait for an upstream reply. A lemma about every run of the machine is
  a lemma about every interleaving.
- Upstream replies, the rows a query without ORDER BY returns, jitter, sleep overshoot and whether a stored
  blob can be decrypted are inputs of a step. Clocks are reals that do not go back.
- Database transactions stage writes that reach the tables together. Unique keys and the ORM's habit of
  writing only changed columns are modelled; a commit that updates a vanished row fails.
- Cryptography is symbolic: a Fernet token is a datatype holding its key, and the S256 transformation and
  key derivation are injective constructors.

## Where the code falls short of its promises

Each of these is proved, with the exact condition where there is one.

- A workspace cannot connect a provider a second time: the callback inserts the oauth_default credential
  unconditionally under a unique key, so it rolls back while that row exists (`CallbackCommitsIff`).
- An inactive connection never becomes active again; a later callback even stores tokens and sets its status
  to connected, and the connection stays unusable (`InactiveForever`, `ReconnectStaysUnusable`).
- docs/oauth.md says revocation always destroys local tokens, which it stores in both the connection and the
  credential. Revocation never touches the credential, which stays until a purge after its expiry
  (`RevocationDestroysTokensIff`, `CredentialSurvivesRevocationIff`). Without a revoke URL the connection keeps
  its tokens as well, and with one but without a readable token nothing changes at all. Refreshes in flight
  and later callbacks bring a revoked connection's tokens back (`LateRefreshRestoresTokensIff`).
- Overlapping refreshes of one connection (the hourly task, a single refresh, the refresh inside an execution)
  lose a rotated refresh token (`OverlappingRefreshesLoseRotation`, `NothingRotatedIsLostIff`).
- docs/oauth.md says the hourly task refreshes tokens about to expire. Its look-ahead parameter is never read,
  so only expired ones are selected (`BatchRefreshesExactlyTheDue`).
- A lifetime beyond the range of dates raises an exception nobody catches, so a granted callback or refresh
  stores nothing (`CallbackCommitsIff`, `RefreshSucceedsIff`).
- Cleanup is invisible to later callbacks, but a callback in flight fails to commit after a cleanup exactly
  when its state has expired or another callback on the same state has consumed it meanwhile
  (`CleanupIsInvisible`, `CleanupDuringCallbackIff`).
- The retry budget counts posts over all subscriptions, so an event with enough subscriptions is never
  retried (`FirstDispatchRetryableIff`), and the last subscription tried alone decides the status
  (`LastTryDecides`).
- A rejected target URL raises and abandons the rest of a retry batch, and its event stays retryable for
  ever (`PassRaisesIff`, `RaiseAbandonsBatch`, `DispatchMakesProgressIff`, `PoisonedEventNeverDrains`). Retry passes stall
  exactly when every batch starts with such a target (`PassLowersBudgetIff`, `PassesStallIff`).
- Concurrent deliveries lose attempts exactly when a commit comes between another worker's read and commit,
  and a late commit sets an exhausted event back to one attempt (`NothingLostIff`, `LateCommitReopensBudget`).
- A webhook whose receiver fails after the Redis guard is lost if redelivered within the TTL
  (`LostWithinTtlIff`).
- With overlapping requests a success recorded while the breaker is open lets a failed probe leave it
  half-open (`LateSuccessDisarmsReopening`, `HalfOpenFailureReopensIff`).
- A cancelled request records no outcome, so a half-open breaker admits any number of them
  (`CancelledRequestsAreNotCounted`).
- Settings rotation loses rows written under the development fallback key, before a change of salt, or under
  a secret that contains a comma (`SettingsRotationKeepsKeyIff`, `SettingsRotationKeepsRingIff`).
- An execution that refreshes its token never closes the first provider instance (`InstancesAreClosedIff`).
- A distributed lock released after its TTL deletes another holder's lock (`ReleaseAdmitsSecondIff`).

## Model

| member | source | states |
|---|---|---|
| `RateLimiter.TokenBucketRateLimiter.constructor` | agentforge-integrations/src/agentforge_integrations/utils/rate_limiter.py:15-20 | A limiter starts with no buckets and keeps any rate and capacity it is given. |
| `RateLimiter.TokenBucketRateLimiter.TryAcquire` | agentforge-integrations/src/agentforge_integrations/utils/rate_limiter.py:24-41 | The locked part of one loop iteration, on the two dictionaries, does to the buckets and answers exactly what the specification of one poll says, other keys included. |
| `RateLimiter.TokenBucketRateLimiter.Acquire` | agentforge-integrations/src/agentforge_integrations/utils/rate_limiter.py:22-43 | A caller nobody interferes with polls at most twice, is served at arrival or exactly when the missing fraction has been refilled (plus its own oversleep), takes exactly one token and leaves other keys alone; with other limits, whenever the loop ends, it ends at its first poll, by a grant or by a division by zero. |
| `RateLimiter.RefillsCompose` | agentforge-integrations/src/agentforge_integrations/utils/rate_limiter.py:30-34 | Lazy refill at any intermediate time changes no later refill. |
| `RateLimiter.PollMeetsContinuousRefill` | agentforge-integrations/src/agentforge_integrations/utils/rate_limiter.py:24-41 | Lazy polling against continuous refill: granted exactly when the continuous level has reached one, a grant costs exactly one token, a refusal costs nothing at any later time. |
| `RateLimiter.WaitIsExact` | agentforge-integrations/src/agentforge_integrations/utils/rate_limiter.py:36-43 | A refused caller that polls again undisturbed is granted if and only if it slept at least the computed wait. |
| `RateLimiter.TokensStayInRange` | agentforge-integrations/src/agentforge_integrations/utils/rate_limiter.py:24-38 | In every run every bucket stays between 0 and the capacity. |
| `RateLimiter.GrantsArePaidFor` | agentforge-integrations/src/agentforge_integrations/utils/rate_limiter.py:24-38 | Grants up to a time are bounded by the level now plus what is refilled until then. |
| `RateLimiter.WindowBound` | agentforge-integrations/src/agentforge_integrations/utils/rate_limiter.py:24-38 | In every run and every window (s, t] the grants on one key number at most capacity + rate * (t - s). |
| `RateLimiter.BurstGrantsWhatIsHeld` | agentforge-integrations/src/agentforge_integrations/utils/rate_limiter.py:26-38 | Of simultaneous polls exactly as many are granted, and the first ones, as the continuously refilled bucket holds whole tokens, whatever fraction it holds and whenever it was last refilled. |
| `RateLimiter.NoCapacityNoGrants` | agentforge-integrations/src/agentforge_integrations/utils/rate_limiter.py:26-41 | With a capacity below one, which the constructor accepts, nobody is ever served. |
| `RateLimiter.NoCapacityWaits` | agentforge-integrations/src/agentforge_integrations/utils/rate_limiter.py:36-43 | With a positive rate and such a capacity every poll computes a positive wait, so that the loop never ends. |
| `RateLimiter.NoRateOnlyInitialTokens` | agentforge-integrations/src/agentforge_integrations/utils/rate_limiter.py:30-38 | With a rate of zero or less a key hands out its initial tokens and no more in any run. |
| `RateLimiter.UnrefilledPoll` | agentforge-integrations/src/agentforge_integrations/utils/rate_limiter.py:30-41 | With a rate of zero or less a poll is granted exactly while a whole token is left; a refused one raises for a rate of zero and sleeps no time for a negative one. |
| `RateLimiter.LevelDecidesPoll` | agentforge-integrations/src/agentforge_integrations/utils/rate_limiter.py:24-41 | Two buckets with the same continuous level answer a poll identically, wait included. |
| `RateLimiter.DroppedPollsAreInvisible` | agentforge-integrations/src/agentforge_integrations/utils/rate_limiter.py:22-44 | Erasing any refused polls, and any polls of other keys, from a run changes no remaining outcome and no later level: failed polls are invisible and keys are independent. |
| `RateLimiter.WakeLowersRank` | agentforge-integrations/src/agentforge_integrations/utils/rate_limiter.py:36-43 | Every wake-up of a closed set of waiters, in any order and however late, lowers a natural-number rank. |
| `RateLimiter.WakeTakesOneToken` | agentforge-integrations/src/agentforge_integrations/utils/rate_limiter.py:22-43 | A waiter leaves exactly when its poll finds a whole token, which it takes; a refused one sleeps until the instant at which that token is due. |
| `RateLimiter.ClosedPoolIsServed` | agentforge-integrations/src/agentforge_integrations/utils/rate_limiter.py:22-43 | n waiters on one key make at most n(n+3)/2 polls in any schedule, and a schedule that leaves somebody waiting can be continued: all are served. |
| `CircuitBreakers.CircuitBreaker.constructor` | src/utils/circuit_breaker.py:21-35 | A breaker starts closed with no failures. |
| `CircuitBreakers.CircuitBreaker.ReadState` | src/utils/circuit_breaker.py:37-43 | Reading the state is what moves an open breaker to half-open, with its success count cleared, once the recovery timeout has passed. |
| `CircuitBreakers.CircuitBreaker.AllowRequest` | src/utils/circuit_breaker.py:45-52 | A request is refused exactly when the state read is open. |
| `CircuitBreakers.CircuitBreaker.RecordSuccess` | src/utils/circuit_breaker.py:54-63 | A success counts towards closing in half-open and clears the failures otherwise. |
| `CircuitBreakers.CircuitBreaker.RecordFailure` | src/utils/circuit_breaker.py:65-70 | A failure is counted and dated, and opens the breaker at the threshold. |
| `CircuitBreakers.CircuitBreaker.ManualReset` | src/utils/circuit_breaker.py:72-76 | A reset closes the breaker and keeps the date of the last failure. |
| `CircuitBreakers.AnyRunKeepsClosedBelowThreshold` | src/utils/circuit_breaker.py:37-76 | In every run of operations, overlapping requests included, CLOSED implies fewer failures than the threshold. |
| `CircuitBreakers.FailuresAreRemembered` | src/utils/circuit_breaker.py:54-76 | The failure counter equals the failures recorded since a success outside half-open, a closing or a reset. |
| `CircuitBreakers.HalfOpenFailureReopensIff` | src/utils/circuit_breaker.py:62-70 | With overlapping requests a half-open failure reopens the breaker exactly when the remembered failures and this one reach the threshold. |
| `CircuitBreakers.CountersAreHistory` | src/utils/circuit_breaker.py:37-76 | In every run, overlapping or not, the date of the last failure and the count of probe successes are those of the recorded history. |
| `CircuitBreakers.EveryTransition` | src/utils/circuit_breaker.py:37-76 | What a look at the state, a success, a failure and a reset do to the state after every run, overlapping or not, in terms of its history: which of them open, half-open and close the breaker, and at which time and count. |
| `CircuitBreakers.LateSuccessDisarmsReopening` | src/utils/circuit_breaker.py:54-70 | A success recorded while OPEN makes the failed probe that follows leave the breaker half-open. |
| `ProviderRequests.RetriedStatusesIff` | src/providers/base.py:199-217 | Exactly the statuses of the default retry policy are retried, also when a request allows one of them. |
| `ProviderRequests.RetryStopsAtFirstFinalReply` | src/utils/retry.py:40-56 | The bounded retry ends at the first reply that is not retryable, or at the attempt limit, and makes one call even for a limit below one. |
| `ProviderRequests.WithRetry` | src/utils/retry.py:48-55 | The attempt loop computes the specified result and number of calls. |
| `ProviderRequests.Provider.constructor` | src/providers/base.py:118-128 | A provider shares its breaker and keeps its attempt limit. |
| `ProviderRequests.Provider.DoRequest` | src/providers/base.py:171-234 | Gate, retry and recording together change the shared breaker and answer as specified: one recorded outcome per admitted request, none for a refused or cancelled one. |
| `ProviderRequests.CallsPerRequest` | src/providers/base.py:184-234 | A refused request makes no upstream call, an admitted one between one and the attempt limit. |
| `ProviderRequests.SequentialRunsAreCoherent` | src/providers/base.py:184-234 | In runs of non-overlapping requests CLOSED holds exactly when failures are below the threshold. |
| `ProviderRequests.HalfOpenFailureReopens` | src/utils/circuit_breaker.py:65-70 | In runs of non-overlapping requests every failed half-open probe reopens the breaker and restarts the timeout. |
| `ProviderRequests.HalfOpenToClosed` | src/utils/circuit_breaker.py:54-70 | From half-open to closed either nothing fails and exactly the missing successes are recorded, or the breaker reopened on the way. |
| `ProviderRequests.OpenToClosed` | src/utils/circuit_breaker.py:37-63 | OPEN reaches CLOSED without a reset only through a final stretch that starts after the recovery timeout, has no failure and no refusal, and contains exactly success_threshold successes. |
| `ProviderRequests.ProbesAreSpaced` | src/utils/circuit_breaker.py:37-70 | While nothing succeeds, the request that records the k-th failure after the last one starts at least k recovery timeouts later, whatever is refused or cancelled in between. |
| `ProviderRequests.FailuresOpenTheBreaker` | src/utils/circuit_breaker.py:65-70 | A closed breaker refuses nothing until the recorded failures reach the threshold, and opens at the end of the request that records the last of them. |
| `ProviderRequests.FailingProviderSpacing` | src/providers/base.py:184-234 | With non-overlapping requests none of which succeeds, cancelled ones included, the request that records the k-th failure (k > failure_threshold) starts at least (k - failure_threshold) recovery timeouts after the first opening. |
| `ProviderRequests.FailingProviderLoad` | src/providers/base.py:184-234 | Upstream calls until T after the first opening number at most max_attempts * (failure_threshold + floor(T / recovery_timeout)), plus those of cancelled requests. |
| `ProviderRequests.CancelledRequestsAreNotCounted` | src/providers/base.py:220-233 | Those cannot be bounded: from a fresh breaker, after the failures that open it and one timeout, any number of cancelled requests is admitted at one instant. |
| `ProviderOutcomes.InterpretMeans` | src/providers/base.py:198-218 | Which statuses become a rate limit, an unavailable provider, a rejection or a returned response, each with its own status. |
| `ProviderOutcomes.RequestMeans` | src/providers/base.py:220-234 | A request without retry makes one call whose reply decides; one with retry ends with its first final reply or its last call. |
| `ProviderOutcomes.ServedIsRecorded` | src/providers/base.py:184-234 | In every state of the breaker a returned request records a success, a failed one a failure at its end, a cancelled or refused one nothing, after one look at the state at its start. |
| `ProviderOutcomes.RequestsAreRecorded` | src/providers/base.py:184-234 | Hence every run of requests is a run of the breaker's own operations. |
| `ProviderOutcomes.BreakerIsItsHistory` | src/utils/circuit_breaker.py:37-70 | In runs of non-overlapping requests the recorded outcomes alone decide: closed until failure_threshold failures in a row, from then on until success_threshold successes in a row, and refusing exactly while the last outcome is a failure less than the recovery timeout ago. |
| `ProviderOutcomes.ClosedOpensIff` | src/utils/circuit_breaker.py:54-70 | A closed breaker opens at a request if and only if it failed and the last failure_threshold outcomes recorded are all failures, cancelled ones skipped. |
| `ProviderOutcomes.ResetStartsAgain` | src/utils/circuit_breaker.py:72-76 | After a manual reset, from every state, requests are admitted at once and the full number of failures is needed again. |
| `WebhookEngine.WebhookDispatcher.DeliverToSubscription` | src/services/webhook_dispatcher.py:138-193 | One delivery writes its row and event as specified; a rejected target raises and changes nothing. |
| `WebhookEngine.WebhookDispatcher.DispatchOne` | src/services/webhook_dispatcher.py:109-136 | A dispatch delivers to the selected subscriptions in turn up to the first raise, or marks the event as without subscribers. |
| `WebhookEngine.WebhookDispatcher.RetryPass` | src/services/webhook_dispatcher.py:210-223 | A retry pass dispatches the selected events in turn up to the first raise. |
| `WebhookEngine.WebhookDispatcher.DeadLetterOverflow` | src/services/webhook_dispatcher.py:225-239 | A dead-letter pass marks exactly the selected events. |
| `WebhookLog.EveryRunAgrees` | src/services/webhook_dispatcher.py:109-239 | In every run of receives, subscriptions, deactivations, dispatches, retry and dead-letter passes each event agrees with its log: rows numbered exactly 1..attempts, delivered/failed equal to the last row's outcome, pending without rows, delivered_at set exactly when a row succeeded, dead_lettered with an exhausted budget and a failed last row. |
| `WebhookLog.EmptyAgrees` | src/services/webhook_dispatcher.py:40-78 | The empty store agrees, so that every reachable store does. |
| `WebhookLog.EveryHistoryAgrees` | src/services/webhook_dispatcher.py:40-239 | Every store reachable from empty tables agrees with its log. |
| `WebhookLog.DeliverAgrees` | src/services/webhook_dispatcher.py:161-192 | One delivery keeps the agreement of every event with its log. |
| `WebhookLog.StepAgrees` | src/services/webhook_dispatcher.py:109-239 | Every single step keeps the agreement. |
| `WebhookLog.DispatchPostsAcceptedPrefix` | src/services/webhook_dispatcher.py:130-192 | A dispatch posts to exactly the subscriptions before the first rejected target, raises exactly when there is one, and logs each post with its own subscription, number and outcome. |
| `WebhookLog.LastTryDecides` | src/services/webhook_dispatcher.py:181-189 | The last subscription tried alone decides the event's status, and the last success its delivery time. |
| `WebhookLog.DispatchFrame` | src/services/webhook_dispatcher.py:109-193 | A dispatch changes no other event and no subscription, and only extends the log. |
| `WebhookLog.DispatchMakesProgressIff` | src/services/webhook_dispatcher.py:124-147 | A dispatch of a failed event makes progress if and only if it has no subscription or its first target is accepted; otherwise it raises and changes nothing. |
| `WebhookDraining.FirstDispatchRetryableIff` | src/services/webhook_dispatcher.py:181-189 | After its first dispatch an event is retryable exactly when the last subscription failed and there are fewer subscriptions than retry_max. |
| `WebhookDraining.RetryPassSpendsBudget` | src/services/webhook_dispatcher.py:210-223 | A retry pass with valid targets completes and spends at least one unit of the summed budget per event it picked, touching no other event. |
| `WebhookDraining.PassLowersBudgetIff` | src/services/webhook_dispatcher.py:210-223 | A retry pass, whether it completes or raises, never raises the summed budget, and lowers it if and only if the first dispatch of its batch has an accepted first target or no subscription. |
| `WebhookDraining.RetryPassesDrain` | src/services/webhook_dispatcher.py:210-223 | Retry passes with any targets, raising or not, of which as many as the summed budget start with an accepted target (or no subscription), leave no retryable event, whichever rows each pass picks. |
| `WebhookDraining.PassesStallIff` | src/services/webhook_dispatcher.py:210-223 | Any number of retry passes leaves the summed budget where it was if and only if the first target of every non-empty batch is rejected. |
| `WebhookDraining.SweepsDrain` | src/services/webhook_dispatcher.py:225-239 | As many dead-letter passes as there are exhausted events leave none failed and change nothing else. |
| `WebhookDraining.Drain` | src/services/webhook_dispatcher.py:210-239 | Such retry passes followed by dead-letter passes leave no event failed, with no event lost or created and the log only extended. |
| `WebhookDraining.TaskLowersWorkIff` | src/services/webhook_dispatcher.py:210-239 | A retry or dead-letter task either lowers the work left (attempts and dead-letterings of failed events) or leaves every table exactly as it is, and which one is decided by its batch. |
| `WebhookDraining.InterleavedTasksDrain` | src/services/webhook_dispatcher.py:210-239 | With the two tasks interleaved in any order, as many rounds as there is work, each with a sweep and a retry pass that starts well or finds nothing, leave no event failed. |
| `WebhookDraining.PassRaisesIff` | src/services/webhook_dispatcher.py:220-223 | A retry pass raises if and only if some target of its batch is rejected. |
| `WebhookDraining.RaiseAbandonsBatch` | src/services/webhook_dispatcher.py:220-223 | The raise comes from the first dispatch of the batch with a rejected target and leaves every event selected after it as it was. |
| `WebhookDraining.PoisonedEventNeverDrains` | src/services/webhook_dispatcher.py:147-147 | An event whose first target is always rejected stays retryable, unchanged, through any number of retry passes. |
| `WebhookRecipients.DeactivatedIsSilent` | src/services/webhook_dispatcher.py:116-123 | A deactivated subscription stays inactive and receives nothing more in any run. |
| `WebhookRecipients.EveryRunIsIsolated` | src/services/webhook_dispatcher.py:116-123 | In every run every delivery went to a subscription of the event's own workspace and provider. |
| `WebhookRecipients.EveryHistoryIsIsolated` | src/services/webhook_dispatcher.py:116-123 | Every store reachable from empty tables is isolated in this sense. |
| `WebhookDeliveries.DispatchPosts` | src/services/webhook_dispatcher.py:109-193 | From every state of the event: the tries before the first rejected target are posted, one row each with its own subscription, number, code and outcome; attempts grow by as many, the last post decides the status and the last success the delivery time; without subscriptions the event is marked so and nothing else happens. |
| `WebhookDeliveries.DispatchReachesEveryRecipient` | src/services/webhook_dispatcher.py:116-135 | A dispatch with accepted targets delivers exactly once to every active subscription of the event's workspace and provider, and to no other. |
| `WebhookDeliveries.RetryWritesPosts` | src/services/webhook_dispatcher.py:210-223 | The rows of a retry pass are those of its dispatches in turn, up to the first rejected target; other events do not change. |
| `WebhookDeliveries.RetryFollows` | src/services/webhook_dispatcher.py:210-223 | A retry pass does to each picked event what a dispatch does, up to and including the first with a rejected target, and leaves the events after it alone. |
| `WebhookDeliveries.RetryReachesEveryRecipient` | src/services/webhook_dispatcher.py:116-135 | A retry pass with accepted targets delivers each picked event exactly once to every recipient and to no other subscription. |
| `WebhookDeliveries.UnfailedUntilDispatched` | src/services/webhook_dispatcher.py:210-239 | An event that is not failed stays exactly as it is, in every run, until it is dispatched by hand. |
| `WebhookDeliveries.ReceivedWaitsForDispatch` | src/services/webhook_dispatcher.py:66-75 | A received event stays pending, without attempts, through any run that does not dispatch it. |
| `WebhookDeliveries.SubscribedIsReached` | src/services/webhook_dispatcher.py:116-135 | From its creation until its deactivation an active subscription is delivered to exactly once by every accepted dispatch of an event of its workspace and provider. |
| `WebhookDeliveries.UnsubscribedIsSilent` | src/services/webhook_dispatcher.py:116-123 | From its deactivation on a subscription receives nothing in any run. |
| `ConcurrentDeliveries.EveryInterleavingIsConsistent` | src/services/webhook_dispatcher.py:146-192 | With deliveries split into read, post and commit, under every interleaving of any number of workers, attempts and every snapshot are at most the number of rows, attempts is the number on the last committed row, and delivered_at is set exactly when a row succeeded. |
| `ConcurrentDeliveries.EveryHistoryIsConsistent` | src/services/webhook_dispatcher.py:146-192 | The same for every interleaving of workers on a new event. |
| `ConcurrentDeliveries.CountStaysExactIff` | src/services/webhook_dispatcher.py:161-192 | From any tracked state the count is exact after a schedule if and only if it was exact before and no commit came between another worker's read and commit: a lost attempt stays lost. |
| `ConcurrentDeliveries.UninterruptedIsDeliver` | src/services/webhook_dispatcher.py:138-193 | A worker nobody interferes with changes the event and the log exactly as the sequential delivery does. |
| `ConcurrentDeliveries.NothingLostIff` | src/services/webhook_dispatcher.py:161-192 | Over all schedules of workers on a new event: attempts equals the number of rows, and the rows are numbered without repetition, if and only if no commit comes between the read and the commit of another worker. |
| `ConcurrentDeliveries.CommitKeepsCountIff` | src/services/webhook_dispatcher.py:161-192 | A commit leaves the count exact if and only if it was exact and nobody committed since this worker's read. |
| `ConcurrentDeliveries.CommitSetsStatusIff` | src/services/webhook_dispatcher.py:182-192 | A commit leaves its own outcome as the status unless that outcome equals a stale snapshot's status. |
| `ConcurrentDeliveries.CommitSetsDeliveredAt` | src/services/webhook_dispatcher.py:161-192 | A commit writes the delivery time only on success, and then its own unless its snapshot held the same; attempts and row number come from its snapshot. |
| `ConcurrentDeliveries.LateCommitReopensBudget` | src/services/webhook_dispatcher.py:161-192 | Whatever the budget, a late commit sets an exhausted event back to one attempt. |
| `WebhookDedup.DedupGuard.Seen` | src/services/redis_service.py:71-75 | The guard answers and changes Redis as SET NX EX does, with the answer negated. |
| `WebhookDedup.SeenIff` | src/services/redis_service.py:71-75 | A query is answered "seen" if and only if one for the same key was answered "not seen" less than the TTL before. |
| `WebhookDedup.AdmissionsAreSpaced` | src/services/redis_service.py:71-75 | Two "not seen" answers for one key are at least the TTL apart. |
| `WebhookDedup.ProvidersNeverCollide` | src/services/webhook_dispatcher.py:90-103 | Dedup keys of distinct colon-free providers differ, whichever headers or payload they come from. |
| `WebhookDedup.DedupKeyIs` | src/services/webhook_dispatcher.py:90-103 | The first id header that is not empty decides the key, whatever else the request holds; without one it is event type and payload id; and there is none exactly when either of those is missing too. |
| `WebhookDedup.HeaderKeysAreExact` | src/services/webhook_dispatcher.py:93-100 | Two events of a provider that carry id headers share their key exactly when the deciding ids are equal. |
| `WebhookDedup.FallbackKeysAreExact` | src/services/webhook_dispatcher.py:101-102 | Fallback keys of colon-free event types are equal only for the same type and id. |
| `WebhookDedup.ColonInTypeCollides` | src/services/webhook_dispatcher.py:101-102 | Event types with a colon can collide with another event. |
| `WebhookDedup.EveryInterleavingIsGuarded` | src/services/webhook_dispatcher.py:59-75 | Stored events never share a dedup key under any interleaving of receivers, and all events of one key, stored or on their way, passed the guard at least the TTL apart. |
| `WebhookDedup.StoredKeysAreDistinct` | src/services/webhook_dispatcher.py:59-75 | From an empty Redis and an empty table no run stores two events with one dedup key. |
| `WebhookDedup.ReceivedIsStoredIff` | src/services/webhook_dispatcher.py:59-75 | A receiver passes the guard exactly if it has no key or its key is not alive, and then stores its event unless the table holds the key already. |
| `WebhookDedup.IndexFiresOnlyAcrossTtl` | src/models/__init__.py:165-165 | The unique index rejects an insert only for events that passed the guard at least the TTL apart. |
| `WebhookDedup.LostWithinTtlIff` | src/services/webhook_dispatcher.py:60-75 | After a receiver failed between guard and commit, and any run of arrivals, inserts and failures since: a redelivery is rejected if and only if it comes within the TTL of that receiver or of a later one that passed the guard, and within the TTL of that receiver no event of its key is stored or on its way that was not before. |
| `WebhookDedup.AliveAfterRunIff` | src/services/redis_service.py:71-75 | After any run of interleaved receivers a key is marked if and only if it was before or some arrival passed the guard less than the TTL ago, whatever became of that receiver. |
| `RedisLocks.RedisLock.Acquire` | src/services/redis_service.py:85-87 | Acquiring succeeds exactly when the key is absent or expired, and then sets it for the TTL. |
| `RedisLocks.RedisLock.Release` | src/services/redis_service.py:89-91 | Releasing deletes the key whoever set it. |
| `RedisLocks.PromptReleasesExclude` | src/services/redis_service.py:78-91 | If every release comes within the TTL of its acquisition, at most one unexpired holder exists in every run. |
| `RedisLocks.PromptHistoryIsExclusive` | src/services/redis_service.py:78-91 | In particular in every such run from a free lock. |
| `RedisLocks.AcquireSucceedsIff` | src/services/redis_service.py:85-87 | In every run of prompt releases an acquisition succeeds exactly when no unexpired holder is left. |
| `RedisLocks.ReleaseAdmitsSecondIff` | src/services/redis_service.py:85-91 | A release lets a second live holder in exactly when some other holder is live at that moment, which a release within the TTL excludes. |
| `OAuthManager.OAuthService.Commit` | src/services/oauth_service.py:172-172 | Pending writes reach the tables together, unless the credential insert repeats a unique key, in which case none do. |
| `OAuthManager.OAuthService.CreateAuthorizationUrl` | src/services/oauth_service.py:60-113 | The stored state and the URL carry the same redirect URI, and the URL the challenge of the stored verifier. |
| `OAuthManager.OAuthService.ConsumeState` | src/services/oauth_service.py:182-198 | A state is found exactly when it is unconsumed, unexpired and of this provider; an expired one is consumed at once, a valid one only pending. |
| `OAuthManager.OAuthService.UpsertConnection` | src/services/oauth_service.py:271-335 | The upsert overwrites status, tokens, scopes and expiry, and keeps the activity flag of an existing row. |
| `OAuthManager.OAuthService.PersistCredential` | src/services/oauth_service.py:337-353 | The credential row is inserted unconditionally. |
| `OAuthManager.OAuthService.HandleCallback` | src/services/oauth_service.py:124-180 | The callback with its pending writes, commits and rollbacks is the atomic callback of the specification, and sends the exchange built from the state row. |
| `OAuthManager.OAuthService.RefreshAccessToken` | src/services/oauth_service.py:361-427 | A refresh changes the connection as specified, malformed lifetimes included, or not at all, and tells a refused refresh, also one answered by an array or text without an access token, from one that breaks on any other body that is no object or on a lifetime out of range. |
| `OAuthManager.OAuthService.RevokeToken` | src/services/oauth_service.py:429-472 | Revocation changes the connection as specified in its three cases. |
| `OAuthManager.OAuthService.Disconnect` | src/services/integration_manager.py:107-113 | Only an active connection can be disconnected; it becomes inactive. |
| `OAuthManager.OAuthService.RefreshEndingTokens` | src/services/token_refresh.py:34-47 | The batch loop skips failed refreshes and counts the successful ones. |
| `OAuthManager.OAuthService.CleanupExpiredStates` | src/services/token_refresh.py:50-64 | The cleanup loop removes exactly the consumed and expired states and counts them. |
| `OAuthFlows.EveryInterleavingIsBound` | src/services/oauth_service.py:60-427 | Flow binding, under every interleaving of flows: each exchange sends the redirect URI and the verifier of the S256 challenge of the URL that carried its state, and every stored token stems from a state created for the same workspace and provider, directly or through refreshes. |
| `OAuthFlows.AuthorizeIsBound` | src/services/oauth_service.py:74-107 | A new state row is bound to the URL that carries it. |
| `OAuthFlows.BeginCallbackIsBound` | src/services/oauth_service.py:137-145 | The exchange sent by a callback is bound to the URL of its state. |
| `OAuthFlows.EndCallbackIsBound` | src/services/oauth_service.py:153-172 | The tokens a callback commits stem from a state of that workspace and provider. |
| `OAuthFlows.EndRefreshIsBound` | src/services/oauth_service.py:413-422 | The tokens a refresh commits, however late, keep their origin. |
| `OAuthFlows.EveryFlowIsBound` | src/services/oauth_service.py:60-427 | Flow binding in every run from empty tables. |
| `OAuthFlows.EveryInterleavingStopsInactive` | src/services/oauth_service.py:429-472 | Under every interleaving, overlapping revocations included, a revoked or disconnected connection stays inactive, and so does one that a revocation in flight read as inactive. |
| `OAuthFlows.RevocationsDeactivate` | src/services/oauth_service.py:429-472 | In every run from empty tables a revoked or disconnected connection is inactive, and the late end of a revocation always leaves its connection unusable. |
| `OAuthFlows.InactiveForever` | src/services/oauth_service.py:293-303 | An inactive connection never becomes active again in any run, so it can never be used again. |
| `OAuthFlows.ReconnectStaysUnusable` | src/services/oauth_service.py:327-333 | A callback on an inactive connection stores the tokens and says connected, and the connection stays unusable. |
| `OAuthFlows.CallbackIsAtomic` | src/services/oauth_service.py:138-172 | Connection, credential and consumed flag commit together, or the consumed flag alone after a rejected exchange, or nothing. |
| `OAuthFlows.EveryRunCommitsTogether` | src/services/oauth_service.py:124-172 | Every run keeps: no credential without its connection, both tokens of a credential from one exchange, every stored or refreshing token back to a callback that committed for that key, the state of a committed callback consumed. |
| `OAuthFlows.NothingHalfCommitted` | src/services/oauth_service.py:124-172 | Hence all this in every run from empty tables. |
| `OAuthFlows.CallbackCommitsIff` | src/services/oauth_service.py:138-172 | A callback commits exactly when the state is valid, a token with a representable lifetime is granted and no oauth_default row exists for the workspace and provider. |
| `OAuthFlows.UniqueViolationKeepsStateValid` | src/models/__init__.py:103-106 | A callback refused by the unique key rolls back the consumed flag as well. |
| `OAuthFlows.OneSuccessPerKey` | src/services/oauth_service.py:182-198 | Under every interleaving two committed callbacks of one workspace and provider have a purge between them that reached the expiry of the credential the first one stored: at most one success while that row exists. |
| `OAuthFlows.EveryStateCommitsOnce` | src/services/oauth_service.py:182-198 | In every run from empty tables two committed callbacks on one state are of one key, and have such a purge between them. |
| `OAuthFlows.OneStateCanCommitTwice` | src/services/token_refresh.py:67-79 | Two callbacks in flight on one state both commit if the first one's credential row is purged in between. |
| `OAuthFlows.RevocationDestroysTokensIff` | src/services/oauth_service.py:429-472 | A revocation leaves no local token of a workspace and provider if and only if its connection has none or one that can be revoked remotely, and no oauth_default credential exists; when it deactivates and marks the connection revoked, and that it changes nothing with a revoke URL and no token. |
| `OAuthFlows.CredentialSurvivesRevocationIff` | src/services/oauth_service.py:337-353 | The oauth_default row of a committed callback is there throughout any run of revocations, disconnections, refreshes and callbacks, unchanged, if and only if no purge runs after its expiry: for ever without one. |
| `OAuthFlows.RunOnState` | src/services/oauth_service.py:182-198 | As long as it is not cleaned up a state row changes only by being consumed, which takes a callback on that state; a row that is gone stays gone. |
| `OAuthFlows.CleanupBreaksCallbackIff` | src/services/token_refresh.py:50-64 | A granted callback in flight that would commit fails after a cleanup if and only if its state row is consumed or expired by then. |
| `OAuthFlows.CleanupDuringCallbackIff` | src/services/oauth_service.py:193-198 | Over any run since the callback began that left its row in place: the cleanup makes it fail if and only if its state has expired or another callback on the same state has consumed it meanwhile. |
| `OAuthStates.FreshStateIsValidIff` | src/services/oauth_service.py:84-94 | A flow can be completed: after an authorization and any run that does not consume its state, a callback finds the state valid exactly for its own provider, until its expiry, and unless a cleanup came after the expiry. |
| `OAuthStates.FreshStateSendsExchange` | src/services/oauth_service.py:137-145 | The callback that then begins sends the exchange of the URL that carried the state: provider, redirect URI and verifier. |
| `OAuthStates.FreshStateCommits` | src/services/oauth_service.py:153-172 | Its granted end commits, whatever has run in between, while the row is there and no oauth_default credential: tokens, scopes and expiry of this flow in connection and credential, activity kept, state consumed. |
| `OAuthStates.CallbackOutcomes` | src/services/oauth_service.py:138-172 | What each answer leaves of a valid state: a rejection consumes exactly it, so that no callback finds it again; an answer that breaks the callback, and a second credential, change nothing; anything else commits. |
| `OAuthStates.InvalidStateOutcomes` | src/services/oauth_service.py:182-198 | An expired state is consumed on the spot, an unknown, consumed or foreign one changes nothing, and neither sends an exchange. |
| `OAuthStates.DeadForever` | src/services/oauth_service.py:182-198 | In every run a consumed or deleted state sends no exchange any more, and only callbacks in flight already can still commit. |
| `OAuthStates.RejectedFlowIsOver` | src/api/auth.py:83-99 | A rejected exchange, committed by the audit record, ends its flow: no later callback on its state in any run sends an exchange, and none commits but one in flight beside it. |
| `OAuthStates.RefreshedExpiryIs` | src/services/oauth_service.py:414-421 | The expiry a granted refresh assigns: its own lifetime, none after a malformed one, and the stored one otherwise. |
| `OAuthStates.LateRefreshMeans` | src/services/oauth_service.py:413-422 | The end of a granted refresh, whatever happened since it began, stores the access token granted and the refresh token sent or read, and keeps status, activity and scopes; any other end changes nothing. |
| `OAuthStates.LateRevocationMeans` | src/services/oauth_service.py:468-472 | The late end of a revocation clears the blob, leaves the connection inactive and revoked unless it had read it so, and keeps scopes and expiry. |
| `OAuthStates.DisconnectedForGood` | src/services/integration_manager.py:107-113 | A disconnection changes only status and activity, and in every run after it the connection cannot be used. |
| `OAuthOverlaps.EndRefreshKeepsTokenIff` | src/services/oauth_service.py:413-422 | The end of a refresh answered without a refresh token keeps the stored one if and only if that is still the one it read when it began. |
| `OAuthOverlaps.StepHoldsLastSentIff` | src/services/oauth_service.py:361-472 | Any single step leaves the connection with the refresh token last sent, if it held it before, if and only if it is not such a refresh on a changed token. |
| `OAuthOverlaps.NothingRotatedIsLostIff` | src/services/oauth_service.py:361-427 | Over all interleavings of refreshes, callbacks and revocations a connection holds the refresh token last sent to it throughout if and only if no refresh ends without a new one on a connection whose refresh token has changed since it began. |
| `OAuthOverlaps.OverlappingRefreshesLoseRotation` | src/services/oauth_service.py:391-422 | From any connection with a refresh token two overlapping refreshes, the first rotating it and the second answered without one, put the old token back. |
| `OAuthOverlaps.TokensStayDestroyedIff` | src/services/oauth_service.py:361-472 | In any run a connection without tokens stays without throughout if and only if no refresh of it that has read a blob ends granted and no callback commits for it; until then no new refresh of it gets on its way. |
| `OAuthOverlaps.LateRefreshRestoresTokensIff` | src/services/oauth_service.py:413-472 | After the end of a revocation, whatever runs: the connection stays inactive, its tokens stay destroyed under exactly that condition, and only refreshes already in flight when it ended can bring them back. |
| `OAuthOverlaps.UntouchedStays` | src/services/oauth_service.py:60-472 | In every run a connection is exactly as it was unless a callback for it committed, a refresh of it was granted, or it was revoked or disconnected. |
| `OAuthOverlaps.ActiveUntilStoppedIff` | src/services/oauth_service.py:429-472 | Under every interleaving a connection in use still is after a run if and only if no step of it disconnected the connection or ended a revocation of it. |
| `OAuthSequential.SequentialCallbackIsInterleaved` | src/services/oauth_service.py:124-180 | The sequential callback is the two interleaved halves with nothing in between. |
| `OAuthSequential.SequentialRefreshIsInterleaved` | src/services/oauth_service.py:361-427 | The sequential refresh is its two interleaved halves with nothing in between. |
| `OAuthSequential.SequentialRevokeIsInterleaved` | src/services/oauth_service.py:429-472 | The sequential revocation is its two interleaved halves with nothing in between. |
| `OAuthSequential.SequentialOpIsStep` | src/services/token_refresh.py:50-79 | The other sequential operations are single transactions of the interleaved machine. |
| `OAuthSequential.StatesAreOneTime` | src/services/oauth_service.py:182-198 | In sequential runs every state commits at most one callback, whatever is cleaned up, purged, refreshed or revoked. |
| `OAuthSequential.CleanupKeepsUsableStates` | src/services/token_refresh.py:50-64 | Cleanup keeps exactly the states a callback could still use. |
| `OAuthSequential.CallbackPreservesSweep` | src/services/oauth_service.py:182-198 | A callback sends, answers and stores the same with and without earlier cleanups. |
| `OAuthSequential.CleanupIsInvisible` | src/services/token_refresh.py:50-64 | A run with cleanups at any times and the same run without them send the same exchanges, give the same answers and end with the same connections and credentials. |
| `OAuthSequential.RefreshKeepsRefreshToken` | src/services/oauth_service.py:391-422 | Any number of successful refreshes, none overlapping another, keeps a refresh token, replaced exactly when the provider sends one, and changes neither status nor activity; overlapping ones are decided by OAuthOverlaps.NothingRotatedIsLostIff. |
| `OAuthSequential.RefreshSucceedsIff` | src/services/oauth_service.py:373-411 | A refresh succeeds exactly when the blob is readable with a refresh token and the provider grants one, and is reported as an expired token exactly when there is nothing to present or the provider refuses; activity plays no part. |
| `OAuthSequential.RefreshedIsDueIff` | src/services/token_refresh.py:25-33 | After a granted refresh an active connection is selected again exactly from the end of the lifetime it was sent, at once after a malformed one, and as before without one; inactive and tokenless ones never are. |
| `OAuthSequential.BatchRefreshesExactlyTheDue` | src/services/token_refresh.py:23-47 | The batch gives each selected connection its own refresh, leaves every other connection alone, selects only active connections with tokens and a missing or past expiry, and selects all of them when its limit allows. |
| `OAuthSequential.BatchReachesAllDueIff` | src/services/token_refresh.py:23-33 | The batch reaches every due connection if and only if there are no more of them than its limit. |
| `OAuthSequential.BatchCountsSuccesses` | src/services/token_refresh.py:34-47 | The number a batch reports is that of its successful refreshes. |
| `ActionExecution.IntegrationManager.ExecuteAction` | src/services/integration_manager.py:139-182 | An execution with its transparent refresh acts on the connection and reports calls and instances as specified. |
| `ActionExecution.ExecutionReturnsIff` | src/services/integration_manager.py:153-182 | An execution makes a call exactly on a usable connection and at most two, returns exactly when the first succeeds, or it reports an expired token and the refresh and the second succeed, and stores the refreshed tokens. |
| `ActionExecution.ExecutionFailsIff` | src/services/integration_manager.py:139-182 | Exactly when each error is raised: no active connection, no or unreadable credentials, an expired token, another error. |
| `ActionExecution.InstancesAreClosedIff` | src/services/integration_manager.py:156-164 | Every provider instance built is closed if and only if not all of these hold: a usable connection, a first call that reports an expired token, a stored refresh token, and a granted refresh. |
| `TokenCache.OAuth2Auth.GetAccessToken` | agentforge-integrations/src/agentforge_integrations/auth/oauth2.py:33-53 | A call whose lock nobody else holds changes the cache and answers as specified. |
| `TokenCache.OAuth2Auth.RefreshToken` | agentforge-integrations/src/agentforge_integrations/auth/oauth2.py:55-84 | A response is stored as specified; a malformed lifetime raises after the token has been stored. |
| `TokenCache.EveryInterleavingIsSafe` | agentforge-integrations/src/agentforge_integrations/auth/oauth2.py:33-53 | Single flight under every interleaving of callers: one caller past the lock at a time, and after a successful refresh ending at r with lifetime e no request starts before r + e - refresh_buffer. |
| `TokenCache.SingleFlight` | agentforge-integrations/src/agentforge_integrations/auth/oauth2.py:33-53 | In particular in every run from an empty cache. |
| `TokenCache.StepIsSafe` | agentforge-integrations/src/agentforge_integrations/auth/oauth2.py:33-84 | Every single step of a caller keeps these invariants. |
| `TokenCache.CacheHoldsLatest` | agentforge-integrations/src/agentforge_integrations/auth/oauth2.py:79-82 | In every run the cached token is the one fetched last. |
| `TokenCache.ServedTokenIsLatest` | agentforge-integrations/src/agentforge_integrations/auth/oauth2.py:33-53 | Every token handed out is the latest one fetched at that point, the requester's own after a request, and with more than refresh_buffer left otherwise. |
| `TokenCache.CacheIsItsHistory` | agentforge-integrations/src/agentforge_integrations/auth/oauth2.py:78-82 | In every run the cache holds the token of the last answer with one and the end of the last lifetime granted. |
| `TokenCache.ServedFromCacheIff` | agentforge-integrations/src/agentforge_integrations/auth/oauth2.py:35-51 | In every run from an empty cache a caller is served without a request exactly while the last token received is not empty and the lifetime last granted has more than refresh_buffer left; otherwise it queues, or requests under the lock. |
| `TokenCache.FailedRequestRevivesNothing` | agentforge-integrations/src/agentforge_integrations/auth/oauth2.py:72-82 | After a refusal a check is fresh exactly when it was before, and after an answer without a proper lifetime only while an earlier lifetime lasts. |
| `TokenCache.BrokenAnswersAreRequestedAgain` | agentforge-integrations/src/agentforge_integrations/auth/oauth2.py:79-82 | While granted tokens are not empty, no caller is served from the cache after an answer without a proper lifetime. |
| `TokenCache.RequesterIsServed` | agentforge-integrations/src/agentforge_integrations/auth/oauth2.py:48-53 | A granted requester is handed its own token, whatever the lifetime; an answer without a token serves nobody; both free the lock. |
| `TokenCache.EndpointLoad` | agentforge-integrations/src/agentforge_integrations/auth/oauth2.py:41-53 | However many callers there are, requests for tokens of lifetime L are at least L - refresh_buffer apart. |
| `TokenCache.AloneIsInterleaved` | agentforge-integrations/src/agentforge_integrations/auth/oauth2.py:33-53 | The method of a lone caller is the interleaved machine without interleaving. |
| `KeyRotation.EncryptionService.DecryptToken` | src/services/encryption_service.py:51-71 | The loop over current and previous keys computes the specified answer, wording included. |
| `KeyRotation.EncryptionService.ReEncrypt` | src/services/encryption_service.py:73-76 | Re-encryption keeps the payload and uses the current key. |
| `KeyRotation.EncryptionService.DecryptCredentials` | src/services/encryption_service.py:83-88 | Credentials are extracted only from a payload that holds a credentials object. |
| `KeyRotation.DecryptionMeans` | src/services/encryption_service.py:51-71 | Decryption returns the payload exactly when the blob's own key is listed and the payload is an object; only the wording of a failure depends on the last key. |
| `KeyRotation.OrderIsIrrelevant` | src/services/encryption_service.py:53-71 | The answer does not depend on the order or repetition of the keys. |
| `KeyRotation.OrderShowsInWording` | src/services/encryption_service.py:63-71 | The wording of a failure does. |
| `KeyRotation.CredentialsRoundTripIff` | src/services/encryption_service.py:80-88 | Encrypted credentials come back exactly under key rings that list their key. |
| `KeyRotation.CredentialsMean` | src/services/encryption_service.py:83-88 | Credentials come out exactly of a blob under a listed key whose payload holds a credentials object; an object without one is invalid. |
| `KeyRotation.RingChangeSafeIff` | src/services/encryption_service.py:51-71 | A change of the key ring keeps every row readable if and only if every row's own key stays listed. |
| `KeyRotation.EveryRunIsReadable` | src/services/encryption_service.py:43-76 | In every run of writes, rotations, re-encryptions and drops of previous keys once all rows are current, every blob decrypts to the payload last written. |
| `KeyRotation.EveryHistoryIsReadable` | src/services/encryption_service.py:43-76 | In particular in every run from an empty store. |
| `KeyRotation.WrittenIsReadBack` | src/services/encryption_service.py:43-76 | What is written to a row is read back, in every run, until that row is written again. |
| `KeyRotation.MigrationCompletes` | src/services/encryption_service.py:73-76 | Re-encrypting every row, in any order, makes all rows current without changing a payload, so that the previous keys can be dropped. |
| `KeyRotation.RotationCompletes` | src/services/encryption_service.py:51-76 | The documented procedure from end to end: after rotating to a new key, re-encrypting every row and dropping the previous keys, the ring is the new key alone and every row, encrypted under it, decrypts to what it did before. |
| `KeyRotation.SettingsRotationKeepsKeyIff` | src/config.py:203-226 | The documented rotation of the settings keeps the old key listed if and only if it does not change that key, or the salt is unchanged and the old secret can be listed: configured and, in the comma-separated form, without a comma. |
| `KeyRotation.SettingsRotationKeepsRingIff` | src/config.py:203-226 | It keeps every key listed before if and only if it keeps that key, and the salt is unchanged or no previous secret was listed. |
| `KeyRotation.RelistableIff` | src/config.py:203-208 | The rotated setting, split at commas and stripped, lists the old secret if and only if that secret contains no comma (as a list: if it has no blanks around it, or its stripped form is listed already). |
| `KeyRotation.SplitJoins` | src/config.py:203-208 | Splitting at commas loses nothing: the parts joined again are the text. |
| `KeyRotation.StripRemovesBlanks` | src/config.py:203-226 | Stripping removes exactly the blanks at both ends. |
| `KeyRotation.CurrentKeyIff` | src/config.py:211-226 | Two settings stand for the same current key exactly if both secrets are blank, or secrets and effective salts agree up to surrounding blanks. |
| `Backoff.CallWithRetry` | agentforge-integrations/src/agentforge_integrations/utils/retry.py:37-55 | The retry loop calls until the first non-retryable ending or the attempt limit, at most max_attempts times, and sleeps the specified waits. |
| `Backoff.WaitsIncreaseBelowCap` | agentforge-integrations/src/agentforge_integrations/utils/retry.py:45-47 | Jittered waits strictly increase until the cap, whatever jitter they draw. |
| `Backoff.SleepsAreBounded` | agentforge-integrations/src/agentforge_integrations/utils/retry.py:45-47 | From any attempt on, the sleeps are bounded by the cap per sleep and by the growth of the backoff. |
| `Backoff.SleepsFollowBackoff` | agentforge-integrations/src/agentforge_integrations/utils/retry.py:45-51 | Every sleep, beyond the cap too, lies within a fifth of min(backoff * 2^(k-1), max_backoff), and is exact for the middle jitter. |
| `Backoff.JitterIsMonotone` | agentforge-integrations/src/agentforge_integrations/utils/retry.py:47-47 | A larger jitter gives a longer sleep. |
| `Backoff.TotalSleepBound` | agentforge-integrations/src/agentforge_integrations/utils/retry.py:38-55 | Total sleep is at most 1.2 * min(backoff * (2^(n-1) - 1), (n-1) * max_backoff). |

## Left out

- HTTP clients, provider packages, routing, middleware, telemetry, logging and task scheduling: plumbing around the protocols.
- Signature verification, HMAC, SHA-256, PBKDF2, JWT and Fernet internals: library cryptography, symbolic here.
- `requires_rotation`, credential masking, provider and action registries, schemas, settings lookup: local computations without state.
- `validate_target_url` and name resolution: whether a target is accepted is an input of each delivery.
- tenacity's wait times in src/utils/retry.py: only the attempt bound and the retried errors are modelled.
- The retry policy attribute of providers: modelled as the intended default policy value, although the class attribute is a bare dataclass field.
- `extra_params` of the authorization URL, a caller-supplied code verifier and `oauth_enrich_token` overrides: callers could override what flow binding promises.
- Credential rows other than oauth_default, and the credential service's own operations.
- Float rounding and clocks that jump back: times and token counts are reals on a monotone clock.
- Retry timing: README.md and docs/webhooks.md speak of exponential backoff, but the retry pass reads no backoff setting, and here a pass may run at any time.
- Subscription fields `events` and `max_retries`: stored, but never read by the code.
- WebhookEngine.WebhookDispatcher.RetryPass: the rows a query selects are a parameter; `LegalRetry` and `LegalDeadLetter` say which selections a query with LIMIT may return.
- OAuthManager.OAuthService.HandleCallback: the upsert and the insert are committed in one step, which on PostgreSQL the lock on the upserted row guarantees; the portable path's race between its select and its insert is not modelled.
- RateLimiter.TokenBucketRateLimiter.Acquire: proved for a caller nobody interferes with; interleaved callers are covered by the lemmas about runs and pools. Calls whose loop never ends (a first poll refused with a rate not positive or a capacity below one) have no result to state; `NoCapacityNoGrants` and `NoRateOnlyInitialTokens` say that nobody is served.
- ProviderRequests.FailingProviderLoad: requests do not overlap; with overlap more requests can be admitted before the first failure is recorded.
- How an environment variable is decoded before the settings validators see it: the previous keys are a text or a list when the model receives them.
- The abstract limiter interface, `retry_on_rate_limit` and `on_retry` callbacks: no behaviour of their own.
