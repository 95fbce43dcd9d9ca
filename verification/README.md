# LLM-Sentinel: a verified model of its dispatcher, throttles, policies and key rotation

LLM-Sentinel is a gateway in front of several language-model providers. This project models the parts of it that keep
state and make promises over time, and proves those promises.

* **Failover dispatcher.** A request walks a chain of providers and retries on each. Every attempt picks a key from the
  provider's pool, asks that key's circuit breaker, calls the provider, and feeds the outcome back into pool and breaker.
* **Throttles.** Sliding windows over requests and tokens, an account lockout and an IP ban. The windows and the lockout
  live in a key-value store with lazily expiring entries. Per-client slots bound concurrency.
* **Policies and truncation.** Content policies fold over a request's messages; then the messages are cut to the
  context window.
* **Key rotation.** Stored API keys are re-encrypted when the encryption key changes.

## How it is built

Every stateful component has a *specification*: a datatype for its state and a function for each operation. The
program's classes update their fields in place (`CircuitBreaker`, `CircuitBreakerManager`, `ApiKeyPool`,
`KeyPoolManager`, `LLMProxy`, `InMemoryStore`, `RateLimiter`, `Authenticator`, `BruteForceProtection`, `SlotTable`,
`KeyRow`) and each method is proved to take the old state to exactly what its function says. The theorems are then about
the functions, over whole runs.

What comes from outside is a parameter. Clock readings are real numbers, one for each time the program reads the clock,
except that picking a key takes one reading where the program takes one per key. Provider replies, random choices,
tokenizer, pattern matches, redaction, threat classification and encryption nonces are functions or values given to the
operation. In-memory operations of the store never suspend, so a check and the update after it form one step.

| file | content |
|---|---|
| `CircuitBreaker.dfy`, `BreakerHistory.dfy` | breaker classes; what the state means in terms of the calls recorded |
| `KeyPool.dfy`, `PoolFairness.dfy` | pool classes; round-robin fairness and key health over runs |
| `Dispatch.dfy`, `LlmProxy.dfy` | the dispatcher as a function; the same as a program over shared pools and breakers |
| `DispatchRuns.dfy`, `DispatchRequest.dfy`, `DispatchReach.dfy` | any run of attempts; one request and requests in a row; when a call is reached |
| `DispatchAnswers.dfy` | what a request answers, sleeps and leaves behind, by the replies and their status codes |
| `Interleaving.dfy` | requests handled concurrently, in any interleaving |
| `Store.dfy`, `StoreLaws.dfy`, `StoreAnswers.dfy`, `StoreRefinement.dfy` | the store; laws of its operations; its answers by membership and counting; lazy expiry against eager expiry |
| `RateLimiter.dfy`, `RateWindow.dfy`, `RateRetry.dfy`, `ClientSlots.dfy` | window checks, their bound, retry-after, slots |
| `RateRepeats.dfy`, `RateStall.dfy`, `RateStore.dfy` | equal entries, slow checks, and a check as operations on the store |
| `AuthLockout.dfy`, `IpBan.dfy` | lockout and ban, one attempt or request at a time |
| `AuthOverlap.dfy`, `IpBanOverlap.dfy` | the same with attempts or requests that overlap |
| `Truncation.dfy`, `TokenCount.dfy` | truncation; what the token estimate counts |
| `Guardrails.dfy`, `PolicyOutcomes.dfy`, `Pipeline.dfy` | policies; who refuses, acts and rewrites what; policies and truncation in order |
| `KeyRotation.dfy` | encryption-key rotation |

## What the proofs found

These are properties one might expect of the code and that do not hold as such. For each there is a lemma that says
exactly when it does, or that shows the failing case next to the condition under which it holds.

* Checks that write the same member in the same instant (equal token counts, or one task twice) leave one entry, so they
  count once. Without distinct entries the window bound holds over all runs exactly for limits of at most one
  (`RateRepeats.RepeatsKeepBoundExactly`).
* The ten seconds of slack in a window's time to live are needed and enough: over all runs whose checks add their entry
  within a given time of their start the bound holds exactly when that time is at most ten seconds
  (`RateStall.SlackIsExact`).
* `expire` on an expired key that is still in the dictionary revives it (`StoreRefinement.ExpireAgreesExactly`). Callers
  write the key first, but read the clock again for `expire`, so a key whose time runs out between the two readings is
  revived (`RateStore.KeyRunsOutInsideCheck`); an eager store would lose the entry just added. A run treats both stores
  alike exactly when no `expire` meets an expired key (`StoreRefinement.LazyRefinesEagerExactly`), which for a window
  check is a condition on its readings (`RateStore.AdmissionAgreesExactly`).
* The retry loop reaches a provider exactly when one of the keys it picks is admitted (`DispatchReach.CallMadeExactly`).
  Round robin does not reach every good key when a back-off ends inside the loop and puts another key before it
  (`DispatchReach.MissedWhenBackoffEnds`); a stretch of attempts as long as there are usable keys, in which none ends, is
  enough (`DispatchReach.RoundRobinReaches`). The least-used strategy does not rotate at all
  (`DispatchReach.LeastUsedAsksOneKey`).
* A back-off keeps its end in every interleaving exactly when no call on the key is under way
  (`Interleaving.BackoffStandsExactly`); otherwise a second 429 can shorten it (`Interleaving.SecondReplyShortensBackoff`).
  Only the end recorded by the latest 429 is always kept (`Interleaving.LatestBackoffIsKept`).
* Overlapping logins are counted past the lockout and overlapping requests past the ban threshold, by as many as are
  under way together less one, and no smaller bound holds (`AuthOverlap.OverlapBoundExactly`,
  `IpBanOverlap.OverlapBoundExactly`).
* When the policies remove every message, the request goes on with the original ones, because an empty list is taken for
  "not modified". `Pipeline.FoldIsUsedExactly` says for which policies and requests that is so.
* The admin guide (`docs/admin-guide.md:680`) expects nothing pending after a rotation. Rows stored as plain text stay
  pending (`KeyRotation.NothingPendingExactly`).
* The admin guide (`docs/admin-guide.md:645`) says that a half-open breaker lets one request through. The code lets any
  number through until a failure is recorded, and the model follows the code (`BreakerHistory.HalfOpenAdmitsAll`,
  `BreakerHistory.HalfOpenEndsExactly`).

## Model

| member | source | states |
|---|---|---|
| `CircuitBreakers.CircuitBreaker.CurrentState` | circuit_breaker.py:45-54 | reading the state moves an OPEN breaker whose timeout has passed to HALF_OPEN, and returns the state after that |
| `CircuitBreakers.CircuitBreaker.IsAvailable` | circuit_breaker.py:56-58 | true exactly when the state after reading it is not OPEN |
| `CircuitBreakers.CircuitBreaker.RecordSuccess` | circuit_breaker.py:60-69 | closes and clears a breaker that is not OPEN, leaves an OPEN one as it is |
| `CircuitBreakers.CircuitBreaker.RecordFailure` | circuit_breaker.py:71-95 | counts the failure and its time; half-open or at the threshold it opens, at a second clock reading |
| `CircuitBreakers.CircuitBreaker.ManualReset` | circuit_breaker.py:97-101 | closes the breaker and forgets count and opening time |
| `CircuitBreakers.CircuitBreakerManager.GetBreaker` | circuit_breaker.py:133-141 | the one breaker of that pair, created fresh on first use, all others untouched |
| `CircuitBreakers.CircuitBreakerManager.RecordFailure` | circuit_breaker.py:149-150 | the failure reaches that pair's breaker and no other |
| `BreakerHistory.ClosedIffBelowThreshold` | circuit_breaker.py:45-101 | over every run with a positive threshold, CLOSED if and only if fewer failures than the threshold are counted |
| `BreakerHistory.ClosedIffBelowThresholdExactly` | circuit_breaker.py:45-101 | that equivalence holds over all runs exactly for positive thresholds |
| `BreakerHistory.FailuresSinceLastClear` | circuit_breaker.py:60-101 | the count is the number of failures after the last reset or last success recorded while not OPEN |
| `BreakerHistory.LastClearExists` | circuit_breaker.py:60-101 | every history has exactly one such last clearing position |
| `BreakerHistory.ResetIsFresh` | circuit_breaker.py:97-101 | after any run, a manual reset leaves a fresh breaker except for the time of its last failure |
| `BreakerHistory.OpenedAtIsLastFailure` | circuit_breaker.py:71-95 | whenever not CLOSED, the opening time is the one read when the last failure was recorded |
| `BreakerHistory.AvailableExactly` | circuit_breaker.py:45-58 | available if and only if fewer than threshold failures since the last clear, or the timeout has passed since the last failure was recorded; stated on the history alone |
| `BreakerHistory.TripHolds` | circuit_breaker.py:45-58 | after a trip and without a reset, the first positive answer comes no sooner than the recovery timeout after the tripping failure |
| `BreakerHistory.HalfOpenIsReached` | circuit_breaker.py:45-54 | HALF_OPEN is reached by a run of the breaker, whatever its limits |
| `BreakerHistory.HalfOpenAdmitsAll` | circuit_breaker.py:45-69 | from HALF_OPEN any number of questions, successes and resets leaves the breaker admitting at every time; questions alone leave it unchanged |
| `BreakerHistory.HalfOpenEndsExactly` | circuit_breaker.py:71-83 | the next event ends a half-open breaker's admission if and only if it is a failure, and for exactly the recovery timeout |
| `KeyPools.ApiKeyPool.IsBackedOff` | key_pool.py:44-52 | true while the back-off lasts; a lapsed entry is removed by asking |
| `KeyPools.ApiKeyPool.CollectUsable` | key_pool.py:63-66 | the healthy keys not backed off, in pool order, dropping lapsed back-offs of the keys looked at |
| `KeyPools.ApiKeyPool.GetNextKey` | key_pool.py:54-79 | none exactly when nothing is usable; otherwise the key its strategy picks, and only round robin moves the counter |
| `KeyPools.UsableBelow` | key_pool.py:63-66 | the list holds exactly the usable indices, each once, ascending |
| `KeyPools.LeastUsedAt` | key_pool.py:72-73 | the position of the first usable key of least usage |
| `KeyPools.ApiKeyPool.RecordError` | key_pool.py:81-87 | one more error on that key; at the threshold it becomes unhealthy |
| `KeyPools.ApiKeyPool.RecordSuccess` | key_pool.py:97-103 | one more use, healthy again, error count untouched |
| `KeyPools.ApiKeyPool.RecordRateLimited` | key_pool.py:105-109 | back-off of that index ends the given seconds from now |
| `KeyPools.KeyPoolManager.GetPool` | key_pool.py:176-180 | the one pool of that provider, created empty on first use, all others untouched |
| `PoolFairness.PickExactly` | key_pool.py:54-79 | no key exactly when every key is unhealthy or resting; otherwise one that is neither, under least-used the first of least usage; what happens to counter and back-offs |
| `PoolFairness.RandomReachesAll` | key_pool.py:70-71 | under random choice every usable key is picked by exactly one of the first choices |
| `PoolFairness.KeysAreAsAdded` | key_pool.py:97-148 | over every run, the keys are those added, in order, with their secret, number of successes and time of the last one |
| `PoolFairness.BackoffIsLatest` | key_pool.py:105-109 | over every run, a back-off held is the one set by the latest 429 on its index |
| `PoolFairness.RoundRobinIsFair` | key_pool.py:63-79 | over any run of picks, marks and additions whose picks all see the same k usable keys, n picks from any counter give each key floor(n/k) or ceil(n/k) |
| `PoolFairness.PicksRotate` | key_pool.py:74-77 | pick j of such a run is the usable key at position (counter + j) mod k |
| `PoolFairness.UnhealthyExactly` | key_pool.py:81-103 | over every run, unhealthy if and only if ten or more errors were marked in all and the last mark on the key is an error |
| `Dispatch.ProvidersToTry` | llm_proxy.py:489-493 | requested provider first, no duplicates, exactly the requested provider and the fallbacks |
| `LlmProxy.FallbacksInChainOrder` | llm_proxy.py:489-493 | the others follow in the order in which the configured chain first names them |
| `LlmProxy.LLMProxy.CollectProviders` | llm_proxy.py:489-493 | the loop builds that list |
| `LlmProxy.LLMProxy.HandleReply` | llm_proxy.py:516-548 | what each kind of reply does to the pool and the breaker of the called key, and to nothing else |
| `LlmProxy.LLMProxy.TakeTurn` | llm_proxy.py:501-548 | one turn of the loop is one attempt of the specification |
| `LlmProxy.LLMProxy.TryProvider` | llm_proxy.py:500-560 | the retry loop on one provider is the specification's, including verdict and seconds slept |
| `LlmProxy.LLMProxy.ChatWithRetry` | llm_proxy.py:477-567 | the whole request: final pools, breakers, answer or error, and seconds slept are those of the specification |
| `DispatchRuns.CallsAreGuarded` | llm_proxy.py:500-518 | every call uses a key that is in the pool, healthy, not backed off, and whose breaker is not OPEN when asked |
| `DispatchRuns.NoKeyExactly` | key_pool.py:59-68 | a turn finds no key exactly when every key of the provider is unhealthy or backed off |
| `DispatchRuns.RateLimitedKeyRests` | llm_proxy.py:529-537 | over any run of attempts, a key that answered 429 is not called again before its back-off ends |
| `DispatchRequest.RateLimitedKeyRestsAcrossRequests` | llm_proxy.py:529-537 | the same across any number of requests handled one at a time |
| `DispatchRuns.CallsAreConserved` | llm_proxy.py:516-548 | per key: calls = usage increase + error increase + 429s; usage counts successes, errors count failures |
| `DispatchRuns.TotalsAreConserved` | llm_proxy.py:516-548 | over all keys of the providers called: total usage grows by the successes, total errors by the failures, and all calls are those and the 429s |
| `DispatchRuns.BreakersFollowTheirCalls` | llm_proxy.py:509-548 | each breaker is exactly the breaker of its own history: asked, then a success, a failure, or nothing for a 429, each recorded once |
| `DispatchRuns.CallsRespectRecovery` | llm_proxy.py:508-518 | from fresh breakers, a call is made only below the threshold of failures since the last clear or after the recovery timeout |
| `DispatchRequest.ServeIsLegal` | llm_proxy.py:497-567 | every request is such a run, in chain order, fed by consecutive moments, with its verdict from its last turn |
| `DispatchRequest.CallsAreOrdered` | llm_proxy.py:497-543 | providers in chain order with no going back, consecutive attempts on each, and nothing after a success or client error |
| `DispatchRequest.ProvidersAreExhausted` | llm_proxy.py:500-505 | a provider is given up exactly when it has no usable key or its attempts are used up; a failed request has exhausted the last provider |
| `DispatchRequest.ExhaustedExactly` | llm_proxy.py:565-567 | 503 exactly when no call was answered by a success or a client error |
| `DispatchAnswers.AnswerExactly` | llm_proxy.py:516-567 | by status codes: a response is the body the last call returned; a provider error is the 4xx other than 429 its last call raised; 503 exactly when every call raised 429, less than 400 or at least 500; no earlier call ended the request |
| `DispatchAnswers.FaultsAreRetried` | llm_proxy.py:500-563 | after such a call the next attempt follows, on the same provider while attempts are left and then on the next, until the last |
| `DispatchAnswers.SleepExactly` | llm_proxy.py:558-560 | 1, 2, 4, 8 and then 10 seconds after each failure on the provider's side but the last attempt's; and the bound by numbers |
| `DispatchAnswers.ReplyOnPool` | llm_proxy.py:516-547 | by status codes: use, health, error count, back-off of the called key, and nothing else in any pool |
| `DispatchAnswers.ReplyOnBreaker` | llm_proxy.py:516-547 | by status codes: success, nothing or failure on that key's breaker and on no other |
| `DispatchAnswers.RestByValue` | llm_proxy.py:529-537 | a key that answered 429 rests a minute, or the whole seconds the reply names when it names a time other than zero |
| `DispatchRequest.RequestIsBounded` | llm_proxy.py:497-560 | at most MAX_RETRIES turns per provider, MAX_RETRIES times the providers in all, and sleep within the providers' pause budgets |
| `DispatchRequest.LedgerOfRequest` | llm_proxy.py:516-548 | calls per key are accounted for; the only usage count that moves is that of the answering key, by one; there is an answering key in a pool exactly when a response is returned |
| `DispatchRequest.TotalsOfRequest` | llm_proxy.py:516-548 | over all keys of the chain: usage rises by one in all exactly when a response is returned, and calls = rise in usage + rise in errors + 429s |
| `DispatchRequest.RequestsAreOneRun` | llm_proxy.py:477-567 | requests handled one after another form one run of attempts |
| `DispatchReach.CallMadeExactly` | llm_proxy.py:500-518 | the loop calls the provider if and only if one of its attempts picks, out of the keys usable by then, one whose breaker admits it, with no attempt before it finding no key |
| `DispatchReach.RoundRobinReaches` | llm_proxy.py:500-518 | under round robin, from any counter, a stretch of attempts as long as there are usable keys, in which these stay the same and one has an admitting breaker, guarantees a call |
| `DispatchReach.RoundRobinReachesExactly` | llm_proxy.py:500-518 | with the usable keys the same throughout and one of them admitted, the loop makes a call from every counter if and only if there are no more of them than attempts |
| `DispatchReach.EveryCounterMeetsExactly` | key_pool.py:74-77 | with one good key among k, the picks meet it from every counter if and only if k is at most the retries |
| `DispatchReach.MissedWhenBackoffEnds` | llm_proxy.py:500-510 | a loop of two attempts on two usable keys, one of them good, that makes no call because a third key joins in between |
| `DispatchReach.LeastUsedAsksOneKey` | key_pool.py:72-73 | under least-used, a call is made if and only if the one least-used key's breaker admits one of the attempts |
| `Interleaving.CallsAreConserved` | llm_proxy.py:516-548 | in every interleaving of concurrent requests: calls started = usage + errors + 429s + change in calls under way, per key |
| `Interleaving.RestedKeyIsLeftAlone` | key_pool.py:44-52 | if no other call on the key is under way when a 429 is recorded, no interleaving starts a call on it before the back-off ends |
| `Interleaving.BackoffStandsExactly` | key_pool.py:44-52 | a recorded back-off keeps its end in all interleavings that come before it if and only if no call on the key is under way |
| `Interleaving.LatestBackoffIsKept` | key_pool.py:44-52 | in every interleaving, no call starts on a key before the end recorded by the latest 429 handled on it |
| `Interleaving.SecondReplyShortensBackoff` | key_pool.py:105-109 | from an idle hub: two tasks call the same key, the second 429 shortens the first one's back-off, and a third task calls the key 98 seconds early |
| `TtlStore.InMemoryStore.IsExpired` | redis_client.py:30-38 | absent counts as expired; an expired key is removed |
| `TtlStore.InMemoryStore.PutWithTtl` | redis_client.py:40-43 | new value, with an expiry only for a positive time to live |
| `TtlStore.InMemoryStore.Get` | redis_client.py:45-50 | the value of a live key, none otherwise |
| `TtlStore.InMemoryStore.Delete` | redis_client.py:52-54 | the key is gone, and whether it was there, expired or not |
| `TtlStore.InMemoryStore.Bump` | redis_client.py:56-67 | a live counter grows and keeps its expiry; otherwise it starts at the amount with none; a non-number raises and changes nothing |
| `TtlStore.InMemoryStore.Keys` | redis_client.py:69-84 | removes every expired key and lists those of the rest that match |
| `TtlStore.InMemoryStore.Ttl` | redis_client.py:86-97 | none, -1 without expiry, or whole seconds left at a second clock reading, never negative |
| `TtlStore.InMemoryStore.Has` | redis_client.py:99-103 | whether a live key is there |
| `TtlStore.InMemoryStore.AddMembers` | redis_client.py:105-120 | the union with a live set, or a new set, keeping the expiry |
| `TtlStore.InMemoryStore.MembersOf` | redis_client.py:122-133 | the members of a live set, none otherwise |
| `TtlStore.InMemoryStore.RemoveMembers` | redis_client.py:135-150 | the difference, and how many distinct members were found |
| `TtlStore.InMemoryStore.AddRanked` | redis_client.py:157-175 | scores updated in place or appended, and how many members are new |
| `TtlStore.InMemoryStore.RangeByScore` | redis_client.py:177-193 | the members in range of a live sorted set, stably sorted by score |
| `TtlStore.InMemoryStore.RemoveByScore` | redis_client.py:195-210 | the sorted set without the range, expired or not, and the number removed |
| `TtlStore.InMemoryStore.SetExpiry` | redis_client.py:212-219 | a new expiry on any key present |
| `StoreLaws.ReadsBackUntilExpiry` | redis_client.py:40-50 | after a write and any run on other keys, the value is read back exactly until it expires |
| `StoreLaws.IncrementsAddUntilExpiry` | redis_client.py:56-67 | a later increment adds to the counter and keeps its expiry exactly until then, and starts afresh afterwards |
| `StoreLaws.RangeIsExactAndSorted` | redis_client.py:177-193 | a range lists exactly the members whose score is in it, in score order |
| `StoreLaws.RemovalIsExact` | redis_client.py:195-210 | removing a range removes exactly what it lists, and the count is right |
| `StoreAnswers.AddedMembersStay` | redis_client.py:105-133 | from then until expiry exactly the earlier and the added members are answered, over any run on other keys; a set that was not live begins with the added ones and no expiry |
| `StoreAnswers.RemovedMembersGo` | redis_client.py:135-150 | exactly the named members go, the count is how many different ones were there, the expiry stays |
| `StoreAnswers.RankedMembersStay` | redis_client.py:157-175 | exactly the entries given and the earlier ones of members not named; the count is the number of new members |
| `StoreAnswers.WrittenKeyIsReported` | redis_client.py:69-103 | existence, listing and seconds left after a write, over any run on other keys |
| `StoreAnswers.DeletedKeyIsGone` | redis_client.py:52-54 | gone for every question, others untouched, and whether it was there |
| `StoreAnswers.OnlyNumbersIncrement` | redis_client.py:56-67 | raises exactly for a live key that holds no number, and then changes nothing |
| `StoreAnswers.NewExpiryHolds` | redis_client.py:212-219 | the value is read back exactly until the new expiry, and the answer is whether the key is there |
| `StoreRefinement.StepIgnoresDead` | redis_client.py:30-219 | one operation on the lazy store and on the store without its expired keys leave the same live contents and answer queries alike |
| `StoreRefinement.ExpireAgreesExactly` | redis_client.py:212-219 | `expire` agrees with the eager store exactly unless it is given an expired key and a non-negative time |
| `StoreRefinement.LazyRefinesEager` | redis_client.py:30-219 | over every run in which no `expire` is given an expired key, both stores agree on the live contents at any later time and on every query |
| `StoreRefinement.LazyRefinesEagerExactly` | redis_client.py:30-219 | over any run, both stores answer every query alike if and only if no `expire` is given an expired key |
| `StoreRefinement.LazyRefinesEagerAfterWrites` | redis_client.py:30-219 | so they do when each `expire` follows a write to its key in the same instant |
| `StoreRefinement.WrittenKeyExpiresExactly` | redis_client.py:40-67 | when time passes between a write and an `expire`, exactly when the latter finds the key expired |
| `RateLimits.RateLimiter.SlidingWindowCheck` | rate_limiter.py:29-62 | the request check, store and decision, is the specification with weight one |
| `RateLimits.RateLimiter.TokenWindowCheck` | rate_limiter.py:93-132 | the token check is the specification with the tokens as weight |
| `RateWindow.WindowNeverExceedsLimit` | rate_limiter.py:29-132 | in every run, mixed with others' operations on the same store, every half-open window holds admitted weight at most the limit |
| `RateWindow.AdmittedExactly` | rate_limiter.py:39-62 | after any run, a check is admitted if and only if the weight in the window ending now plus its own fits the limit |
| `RateWindow.RunKeeps` | rate_limiter.py:39-60 | neither pruning nor the key's time to live ever drops an entry that still counts |
| `RateRetry.RefusalAfterRun` | rate_limiter.py:46-55 | after any run, a refusal means the window is too full, and retry_after is the least whole number of seconds strictly greater than the wait until the oldest entry leaves |
| `RateRetry.RetryAfterRun` | rate_limiter.py:46-55 | for requests, after a refusal and with no admission in between, a retry is admitted if and only if that wait is over, so at least retry_after seconds later it is |
| `RateRetry.TokenRetryAfterRun` | rate_limiter.py:116-132 | for tokens, such a retry is admitted if and only if what is left in the window makes room, and never for as many tokens while the oldest entry remains |
| `RateRetry.UnreadableMembers` | rate_limiter.py:47-53 | a member in which no number can be read counts as a request and as no token, and at the head makes retry_after one second |
| `RateRepeats.AdmittedByEntries` | rate_limiter.py:39-62 | over any run of prompt checks, repetitions or not, a check is admitted if and only if the entries in the window, repetitions apart, leave room |
| `RateRepeats.RepeatsExceed` | rate_limiter.py:128-129 | for every limit of two or more, a run of equal checks that admits one more than the limit in a window |
| `RateRepeats.RepeatsKeepBoundExactly` | rate_limiter.py:128-129 | without distinct entries, all runs of prompt checks keep the window bound if and only if the limit is at most one |
| `RateStall.StallExceeds` | rate_limiter.py:36-59 | for every slack above ten seconds, a run that fills the window and then stalls admits one more than the limit |
| `RateStall.SlackIsExact` | rate_limiter.py:36-59 | all runs whose checks add their entry within the slack keep the window bound if and only if the slack is at most ten seconds |
| `RateStore.AdmissionIsRun` | rate_limiter.py:39-60 | an admitted check is four operations of the store, each at its own clock reading |
| `RateStore.AdmissionAgreesExactly` | rate_limiter.py:39-60 | these leave the lazy and the eager store alike if and only if the key's time to live does not run out between the last two readings |
| `RateStore.KeyRunsOutInsideCheck` | rate_limiter.py:56-60 | a proper run of two admitted requests in which it does |
| `ClientSlots.SlotTable.AcquireClientSlot` | rate_limiter.py:185-191 | refused at the maximum, else the counter goes up by one |
| `ClientSlots.SlotTable.ReleaseClientSlot` | rate_limiter.py:196-199 | the counter goes down by one, clamped at zero |
| `ClientSlots.LeaveFreesOne` | rate_limiter.py:196-199 | one slot of that client fewer, never below none, and no other client touched |
| `ClientSlots.CounterIsHolders` | rate_limiter.py:180-199 | in every interleaving the counter equals the number of holders and is at most the client's maximum |
| `ClientSlots.ClampNeverNeeded` | rate_limiter.py:197-199 | a leaving task always finds its counter positive, so neither clamp nor default takes effect |
| `ClientSlots.RefusedExactly` | rate_limiter.py:186-190 | a task is refused exactly when as many of its client's tasks as allowed are inside |
| `AuthLockout.Authenticator.RecordAuthFailure` | auth.py:452-462 | one more failure, expiring in 900 seconds, and a lock from the fifth on |
| `AuthLockout.Authenticator.LocalAuthenticate` | auth.py:402-449 | locked out, failed and recorded, or succeeded with the counter deleted |
| `AuthLockout.CounterNeverExceedsFive` | auth.py:452-462 | over every run of atomic attempts of any users, a user's failure counter is at most five |
| `AuthLockout.LockOutlivesCounter` | auth.py:460-462 | while a counter at five is alive, a lock that expires no earlier is in place and every attempt is locked out |
| `AuthLockout.WindowHoldsAtMostFive` | auth.py:412-462 | over every run of atomic attempts of any users, every closed window of 900 seconds without a success of the user holds at most five of its counted failures |
| `AuthLockout.LockedOutExactly` | auth.py:412-449 | locked out exactly up to 900 seconds after the latest failure that left the counter at five or more; any other attempt is decided by the password, and a right one clears the counter |
| `AuthLockout.UsersAreSeparate` | auth.py:412-461 | an attempt of another user leaves counter, lock and all outcomes of this one as they were |
| `AuthLockout.LockedByEntry` | auth.py:412-416 | an attempt is locked out exactly by a live, non-empty entry under its own user's lock key |
| `AuthOverlap.StepsMakeAttempt` | auth.py:402-449 | lock check and settlement with nothing in between are the attempt as a whole |
| `AuthOverlap.CounterBoundedByOverlap` | auth.py:412-458 | in every interleaving with at most m attempts of a user under way, the counter is at most four and m |
| `AuthOverlap.OverlapBoundExactly` | auth.py:412-458 | over all such interleavings a bound on the counter holds if and only if it is at least that |
| `AuthOverlap.FiveHoldsExactly` | auth.py:412-462 | five bounds the counter over all of them if and only if m is at most one |
| `IpBan.BruteForceProtection.Dispatch` | security.py:269-314 | banned with the seconds left, or let in with a past ban forgotten, and a 401 recorded |
| `IpBan.BruteForceProtection.RecordFailure` | security.py:296-304 | the recent failures and the new one, and a ban from the threshold on |
| `IpBan.BruteForceProtection.UnbanIp` | security.py:447-453 | ban and failures of the address forgotten, and whether there was a ban |
| `IpBan.FailureListBounded` | security.py:276-304 | requests one at a time: a failure list never grows past the threshold |
| `IpBan.FailureListBoundedExactly` | security.py:303-304 | that bound holds over all runs exactly for thresholds of at least one |
| `IpBan.WindowHoldsAtMostThreshold` | security.py:276-304 | every half-open window as long as a ban holds at most the threshold of recorded 401s from one address |
| `IpBan.FullListIsTurnedAway` | security.py:276-289 | at the threshold the address is turned away exactly until a whole ban after its last recorded 401 |
| `IpBan.TurnedAwayExactly` | security.py:275-289 | after any run, turned away exactly with a full list whose last 401 is less than a ban ago, and told the whole seconds left |
| `IpBan.UnbannedIsLetIn` | security.py:447-453 | let in at once with an empty list, no other address touched, and whether there was a ban |
| `IpBanOverlap.StepsMakeRequest` | security.py:269-314 | entering and leaving with nothing in between are the request as a whole |
| `IpBanOverlap.ListBoundedByOverlap` | security.py:276-304 | in every interleaving with at most m requests of an address under way, its list holds at most the threshold and m less one |
| `IpBanOverlap.OverlapBoundExactly` | security.py:291-304 | over all such interleavings a bound on the list holds if and only if it is at least that |
| `IpBanOverlap.ThresholdHoldsExactly` | security.py:291-304 | the threshold bounds the list over all of them if and only if m is at most one |
| `Truncation.EstimateMessagesTokens` | llm_proxy.py:54-66 | the loops add up text tokens and four per message |
| `TokenCount.FlatExactly` | llm_proxy.py:54-64 | the list of texts holds every text as often as it stands in the messages, as a content or as a part |
| `TokenCount.EstimateIsSum` | llm_proxy.py:54-66 | the estimate is four for every message and the tokens of every text in that list |
| `TokenCount.SameTextsSameEstimate` | llm_proxy.py:54-66 | as many messages with the same texts equally often have the same estimate |
| `TokenCount.TokensByValue` | llm_proxy.py:38-51 | none for an empty text, the tokenizer's number, or one for every four characters and at least one |
| `TokenCount.OtherPartsAreFree` | llm_proxy.py:61-64 | a part that is no text changes nothing |
| `TokenCount.SplittingCostsOverhead` | llm_proxy.py:54-66 | sending the parts as messages of their own changes the estimate by four for each additional message |
| `Truncation.KeepNewest` | llm_proxy.py:97-114 | the backwards loop makes the greedy choice |
| `Truncation.TruncateMessages` | llm_proxy.py:73-129 | result and flag are those of the specification |
| `Truncation.TruncationIsOptimal` | llm_proxy.py:73-129 | truncated exactly above the limit; then all system messages in order and the longest suffix of the others that fits |
| `Truncation.ResultFitsExactly` | llm_proxy.py:90-116 | the result fits the limit if and only if the system messages alone do |
| `Truncation.TruncationKeepsSystems` | llm_proxy.py:86-116 | no system message is lost and of the others a suffix remains |
| `Truncation.TruncationIsIdempotent` | llm_proxy.py:73-129 | truncating again with the same limit changes nothing |
| `Truncation.SystemHeadSurvives` | llm_proxy.py:86-116 | a system message at the head stays at the head for every limit |
| `Guardrails.DetectThreat` | guardrails.py:378-469 | enough patterns for the sensitivity, then the classifier if the mode asks for it; nothing exactly when neither finds the threat; and the reason reported |
| `Guardrails.ModesDetectExactly` | guardrails.py:378-469 | what each mode lets pass: both checks what either alone would, no known mode everything; a higher sensitivity finds all that a lower one does |
| `Guardrails.RedactEach` | guardrails.py:348-359 | every string content redacted, nothing else changed |
| `Guardrails.EvaluateRequestLoop` | guardrails.py:288-479 | the loop over the policies is the fold, with its early exits and the report of modified messages |
| `PolicyOutcomes.RefusedExactly` | guardrails.py:342-459 | refused exactly when some policy has its own ground on the messages left by the policies before it, none of which had; with that policy's reason |
| `PolicyOutcomes.RecordExactly` | guardrails.py:288-474 | the record names the policies that acted, each once, in order, with what they did, up to the one that refused |
| `PolicyOutcomes.MessagesExactly` | guardrails.py:295-477 | what each policy makes of the messages, and that they are handed back exactly when they end up different |
| `PolicyOutcomes.AllTextExactly` | guardrails.py:323-326 | the text looked at is the string contents in order with one blank between two |
| `PolicyOutcomes.RedactedIsGone` | guardrails.py:348-359 | what a redaction removes from every text is gone from all messages it leaves |
| `Pipeline.EvaluateConcat` | guardrails.py:295-474 | evaluating P then Q is evaluating P ++ Q |
| `Pipeline.RejectionIsAbsorbing` | guardrails.py:342-347 | after a rejection nothing changes whatever policies follow |
| `Pipeline.ConversationIsKept` | guardrails.py:295-477 | number, order and roles of the non-system messages are kept by any policies |
| `Pipeline.ConversationIsUntouched` | guardrails.py:295-477 | without a redacting policy those messages are kept word for word |
| `Pipeline.LastPromptHeadsTheRequest` | main.py:398-409 | the last policy that writes a system prompt decides what heads the request handed on, for any encoder and limit |
| `Pipeline.OnlyEnforcedPromptIsSeen` | guardrails.py:308-315 | an enforced prompt without client prompts is the only system message handed on |
| `Pipeline.FoldIsUsedExactly` | main.py:399-403 | of an allowed request the fold's messages go on unless it is a non-empty request of system messages only and some policy drops these with no policy after it writing one; and exactly when the fold is empty |
| `Pipeline.DroppedPromptsComeBack` | main.py:402-403 | a request for which the original messages go on after the policies removed them all |
| `Pipeline.HandedOnExactly` | main.py:398-409 | policies and truncation together: when it is truncated, when it fits, all system messages, and a suffix of the conversation in its shape |
| `PolicyOutcomes.DeniedExactly` | main.py:398-401 | denied exactly when some policy refuses first, with its reason or the general one when that is empty |
| `PolicyOutcomes.HandedOnUncut` | main.py:402-409 | without truncation the messages the policies leave go on, or the original ones when these are none, the conversation in its shape |
| `KeyRotation.ReEncryptStaleKeys` | key_pool.py:320-360 | every row renewed in place as specified, and the count is the number of rows changed |
| `KeyRotation.GetRotationStatus` | key_pool.py:362-394 | total, rows the current key opens, the rest, and eight characters of the current key's digest |
| `KeyRotation.StatusExactly` | key_pool.py:362-394 | total, the number of rows the current key opens, the rest, and the head of the digest; nothing but the total without a key |
| `KeyRotation.ReEncryptionKeepsReadings` | key_pool.py:336-356 | what every row reads as is unchanged |
| `KeyRotation.CurrentKeyAloneSuffices` | key_pool.py:336-356 | afterwards the current key alone opens exactly the rows either key opened before, with the same plaintext |
| `KeyRotation.SecondCallCountsNothing` | key_pool.py:336-360 | a second call changes nothing and returns 0 |
| `KeyRotation.CountIsDropInPending` | key_pool.py:320-394 | the count is the drop in pending rows; what stays pending are the rows neither key opens |
| `KeyRotation.NothingPendingExactly` | key_pool.py:362-394 | nothing is pending after a rotation if and only if one of the keys opened every row |
| `KeyRotation.NoPlaintextIsLost` | key_pool.py:320-429 | over any run of additions, removals and rotations, each with re-encryption, the table reads as the texts added, without the previous key |
| `KeyRotation.AllSealedUnderCurrent` | key_pool.py:266-275 | started with a key, every row is always sealed with the current one |
| `KeyRotation.SealedReadsExactly` | key_pool.py:408-429 | a sealed row reads as its plaintext exactly while a current key is set and its key is that or the previous one; plain text reads as itself |

## Left out

- Streaming dispatch (`_stream_with_retry`), embeddings and model listing: streaming may move to another provider after
  chunks have been sent, so it makes no comparable promise.
- Removing a key from a pool: back-off entries and breakers are keyed by position and are not moved, so no property that
  follows a key survives it.
- Resetting all breakers of a provider, and the synchronisation of breakers through Redis, which drops the opening time.
- The breaker manager keys its dictionary by the string "provider:index"; the model keys it by the pair.
- Real Redis: only the in-memory store is modelled.
- TtlStore.InMemoryStore.Keys: does not model the order in which keys are listed; the result is a set.
- KeyPools.ApiKeyPool.CollectUsable: takes one clock reading where the program takes one per key; in the program a back-off
  can end between the looks at two keys.
- RateWindow.WindowNeverExceedsLimit: assumes distinct entries per key and checks that add their entry within ten seconds;
  `RateRepeats.RepeatsKeepBoundExactly` and `RateStall.SlackIsExact` say what holds without either.
- AuthLockout.WindowHoldsAtMostFive: assumes that an attempt is not interleaved with another one of the same user; overlap
  is bounded for the counter only (`AuthOverlap.OverlapBoundExactly`).
- IpBan.WindowHoldsAtMostThreshold: assumes requests one at a time and no manual unban; overlap is bounded for the list
  only (`IpBanOverlap.OverlapBoundExactly`).
- The test-mode switch that turns the rate limits off, the global semaphore, the active-request table and queue figures.
- A message without a content entry is modelled as one with an empty content.
- Output policies on responses, policy loading by client, and the policies' own pattern matching and classifier calls.
- The padding of configured secrets to 32 bytes; a key is what comes out of it.
- Sessions, tokens, LDAP, request signing, caching, cost tracking, backups, configuration export and the admin interface.
