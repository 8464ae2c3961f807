# Verified models of the job hunter's stateful cores

This project models, in Dafny, the small stateful machines of the backend that
have to agree with something simpler, and proves that they do:

* `RequestLimiter.dfy`, `RpmLimiter.dfy`, `SlidingWindow.dfy`: the per-key request
  limiter and the AI rate limiter, against logs that never forget a hit;
* `BoundedCache.dfy`, `KeyCache.dfy`, `KeyDerivation.dfy`: the bounded TTL map
  against an unbounded one, the derived-key cache across key rotations, and the
  HKDF expansion of RFC 5869;
* `Breaker.dfy`, `Gateway.dfy`, `Guardrails.dfy`: the circuit breaker against its
  history, the retry, fix-up and escalation loop against an arbitrary provider,
  and the repair loop of guarded tasks against an arbitrary model;
* `LeaseQueue.dfy`, `Heartbeat.dfy`, `SlotBudget.dfy`: the lease protocol of one
  queue row under every interleaving of workers, reapers, watchdog, users and operators,
  the heartbeat that keeps its lease alive on the clock, and the choice of the next
  row under per-pipeline slot budgets;
* `Subscription.dfy`: the subscription expiry machine, lazy and swept;
* `MetricsRegistry.dfy`, `Labels.dfy`: the capped metrics registry against the list
  of writes, and label rendering against a parser;
* `BodyLimit.dfy`: the streaming request-body cap against two transparent channels;
* `Luhn.dfy`: the Luhn check and the errors it catches;
* `Recency.dfy`, `Wrappers.dfy`: the theory of recency order that limiter, cache and
  registry share, and small shared definitions.

Most files have the same shape: a step function on values, a reference that is
simpler than the code, lemmas over whole runs that connect the two, and a class
whose methods take the step in place with the loops of the original. Clocks,
provider and model replies, application behaviour and everybody else's actions
are parameters, so a statement holds for all of them.

Where the code differs from its comments or documentation, the model follows the
code. The differences that show in a theorem:

* the sweep of the request limiter stops at the first live key because everything
  behind it is said to be live too (`backend/app/core/middleware.py:659`); a denied
  call moves its key to the end without giving it a hit, so this can fail
  (`SweepCanLeaveDeadKeys`, and exactly when in `DeadBehindLiveIff` and
  `SweepLeavesNoDeadKeyIff`);
* `retry_after` speaks of the oldest hit in the window, which is said to decide when a
  slot frees up (`backend/app/core/middleware.py:636`); reads and writes share a key
  and differ in budget, so a newer hit can be in the way and the hint be too early by
  almost the whole window (`WriteAfterReadsIsMisled`), and by one moment even when the
  oldest hit does decide, because pruning is strict (`RetryHintCanBeTooEarly`); exactly
  when it is right is `RetryAtHintAdmittedIff` and `RetryOnOwnHitAdmittedIff`;
* asking the AI limiter for more tokens than its rpm raises an index error instead
  of waiting (`WaitAndAcquire`); any integer can be set as the rpm, and below one a
  gateway call ends with that error, nothing sent and nothing recorded
  (`ChatCompletion`, `CrashedIffNotPermitted`);
* a breaker threshold of zero or less refuses calls before anything failed
  (`ThresholdBelowOneRefusesWithoutFailures`);
* a repair prompt asks to fix "exactly these problems" but lists only the first
  eight (`RepairsNameTheViolations`, `NinthViolationIsNotListed`);
* a NaN passes both range tests of a schema, so a returned result can miss a range
  rule (`NaNIsReturned`, and exactly when in `ReturnedHonoursContract`);
* the branch for a pipeline without a handler records its failure without the
  ownership fence every other outcome has, and drain, operator retry, reuse, user
  answer and closing write rows they read earlier without a compare-and-set; how
  much of this the queue tolerates is stated exactly (`DoneIffCompletedOnce`,
  `NoHandlerCanCompleteTwice`, `StaleRetryCompletesTwice`);
* a user's answer grants the failure budget anew, so a row's claims per enqueue are
  bounded by its answers and retries, not by its budgets alone (`ClaimsAreBounded`);
* a slot budget counts live leases only, and a heartbeat can revive a lease whose
  slot was given away; a claim by id does not look at budgets (`BudgetHoldsIff`,
  `RevivalOvershoots`, `ClaimByIdOvershoots`);
* all slots of a process share one worker id, so the fence cannot tell two of its
  runs apart (`SupersededRunWinsIffIdShared`);
* an operator retry promises fresh budgets but keeps the reclaim count
  (`RetriedRowSurvivesExpiryIff`);
* a metric name written through two kinds leaks series (`TwoKindsLeakFromEmpty`, and
  exactly when in `SeriesStayListedIff`);
* `_render_labels` does not escape line breaks, which the text format cannot hold
  inside a value (`LineBreaksAfterEscaping`, `ParseRecoversLabels`);
* a `Content-Length` holding a superscript digit passes `isdigit` and makes `int`
  raise, and so does one of more than 4300 digits (`DeclaredContentLength`).

## Model

| member | source | states |
|---|---|---|
| `RequestLimiter.VerdictsAreNaive` | backend/app/core/middleware.py:620-641 | on every run on a nondecreasing clock, a call returns exactly what counting the admitted hits since the key was last dropped by the cap returns: allowed or not, and the same `retry_after` |
| `RequestLimiter.BucketsCoverHistory` | backend/app/core/middleware.py:631-661 | whatever was pruned, swept or moved, every key's bucket is the suffix of its full history that the window can still need |
| `RequestLimiter.NeverDroppedIsFull` | backend/app/core/middleware.py:620-646 | for a key the cap never dropped, the hits let through are those of the full-history reference, which forgets nothing |
| `RequestLimiter.SweepsAreUnobservable` | backend/app/core/middleware.py:648-661 | two runs that differ only in the sweep interval give the same verdicts for a key the cap drops in neither |
| `RequestLimiter.WindowNeverExceeded` | backend/app/core/middleware.py:632-641 | any closed interval no longer than the window holds at most as many admitted hits as the budget of its last admitted call |
| `RequestLimiter.AfterIsWf` | backend/app/core/middleware.py:643-646 | after every call the map holds at most `max_keys` keys, each once, and the key just served is still in it |
| `RequestLimiter.OrderIsByLastCall` | backend/app/core/middleware.py:625-631 | the key order is at all times the order of the keys' last calls |
| `RequestLimiter.CapDropMeansOvertaken` | backend/app/core/middleware.py:643-646 | the cap drops a key only after at least `max_keys` distinct other keys were called since its last call |
| `RequestLimiter.StepOnOthers` | backend/app/core/middleware.py:643-661 | a call leaves the bucket of any other key alone unless it drops it as dead or over the cap |
| `RequestLimiter.ReturnAdmittedIff` | backend/app/core/middleware.py:632-641 | a denied caller that comes back at any later moment with any budget n, after any calls of other keys that do not get its key dropped, is admitted iff fewer than n of its hits were stored at the denial or the n-th newest of them is older than the window by then |
| `RequestLimiter.RetryAtHintAdmittedIff` | backend/app/core/middleware.py:634-639 | coming back exactly `retry_after` seconds later with the same budget n is admitted iff the n-th newest stored hit, the one that must leave, had less than that left to live; the hint is what the oldest stored hit had left, which is another hit when reads and writes of different budgets share the key |
| `RequestLimiter.RetryOnOwnHitAdmittedIff` | backend/app/core/middleware.py:634-639 | when no more hits are stored than the budget allows, that is iff the oldest one had less than a second or no whole number of seconds left |
| `RequestLimiter.WriteAfterReadsIsMisled` | backend/app/core/middleware.py:634-639 | a run of the limiter: a write with budget 1 after two reads with budget 2 is denied with the hint 21 and denied again 21 seconds later, against the comment on line 636 |
| `RequestLimiter.HintOfDenial` | backend/app/core/middleware.py:634-639 | the hint of a denial is the life left to the key's oldest stored hit, rounded up, at least one second |
| `RequestLimiter.RetryHintCanBeTooEarly` | backend/app/core/middleware.py:632-639 | a run of the limiter: a call denied with the hint 60 comes back exactly 60 seconds later and is denied again, because pruning is strict |
| `RequestLimiter.DeadBehindLiveIff` | backend/app/core/middleware.py:654-661 | a key behind a live one is dead iff its last call was denied and its last admitted hit is older than the window |
| `RequestLimiter.SweepLeavesNoDeadKeyIff` | backend/app/core/middleware.py:648-661 | a due sweep leaves no dead key iff the key it stops at, at a live one or after 1024, is not dead and no key behind it had its last call denied and its last hit expired |
| `RequestLimiter.SweepDropsDeadFront` | backend/app/core/middleware.py:648-661 | a sweep drops nothing before its interval is over, and then keys without a hit in the window from the front, up to the first with one but no more than 1024 |
| `RequestLimiter.SweepCanLeaveDeadKeys` | backend/app/core/middleware.py:658-659 | a concrete run after which the sweep leaves a dead key in the map, against the comment on line 659 |
| `RequestLimiter.SlidingWindowLog.constructor` | backend/app/core/middleware.py:606-618 | the floors of the configuration and an empty log |
| `RequestLimiter.SlidingWindowLog.Allow` | backend/app/core/middleware.py:620-641 | the method on the live dictionary returns the verdict and reaches the state of `Step`; decisions and denials are counted |
| `RequestLimiter.SlidingWindowLog.EvictOverCap` | backend/app/core/middleware.py:643-646 | the eviction loop cuts exactly the surplus off the front |
| `RequestLimiter.SlidingWindowLog.Sweep` | backend/app/core/middleware.py:648-661 | the sweep drops exactly the leading run of dead keys, at most 1024, and only when it is due |
| `RequestLimiter.SlidingWindowLog.PopExpired` | backend/app/core/middleware.py:632-633 | the pruning loop leaves the hits no older than the window |
| `SlidingWindow.PrunedIsWithin` | backend/app/core/middleware.py:632-633 | the pruned deque is exactly the part of the full log inside the window |
| `SlidingWindow.WindowBound` | backend/app/core/middleware.py:634-640 | if every hit was admitted under its limit, no window-sized interval holds more than the limit of its last hit |
| `RpmLimiter.RepliesAreNaive` | backend/app/core/rate_limiter.py:46-68 | on every run with budget changes and statistics reads, a call answers what the log of all admitted tokens says: grant, wait time, or the index error of an empty deque |
| `RpmLimiter.AfterRepresents` | backend/app/core/rate_limiter.py:46-87 | the pruned deque stands for the full log at every moment |
| `RpmLimiter.StatsCountTheMinute` | backend/app/core/rate_limiter.py:77-87 | on every run statistics count exactly the tokens admitted in the last sixty seconds |
| `RpmLimiter.NeverExceedsRpm` | backend/app/core/rate_limiter.py:54-62 | no closed interval of 60 s admits more tokens than the rpm in force at its last admission |
| `RpmLimiter.SleepExpiresOldest` | backend/app/core/rate_limiter.py:64-75 | the advertised wait is what the oldest stored timestamp has left of sixty seconds, and a twentieth; after it at least one stored timestamp has expired, however late the sleep ends |
| `RpmLimiter.TokenBucketRateLimiter.Acquire` | backend/app/core/rate_limiter.py:46-68 | one locked acquisition on the live deque is `AcquireStep`, with its counters |
| `RpmLimiter.TokenBucketRateLimiter.WaitAndAcquire` | backend/app/core/rate_limiter.py:70-75 | with fixed rpm and no competitor the loop ends after at most as many sleeps as there are stored timestamps; it raises iff more tokens are asked for than the rpm |
| `RpmLimiter.TokenBucketRateLimiter.Stats` | backend/app/core/rate_limiter.py:77-87 | used and remaining tokens of the current window |
| `RpmLimiter.TokenBucketRateLimiter.UpdateRpm` | backend/app/core/rate_limiter.py:24-27 | the budget changes, the timestamps stay |
| `BoundedCache.IsSubMap` | backend/app/core/lru.py:66-112 | an entry of the map is always the latest put of its key with no pop or clear since: the map is part of the unbounded one |
| `BoundedCache.GetIsUnbounded` | backend/app/core/lru.py:66-80 | `get` answers as the unbounded TTL map would, unless the key was evicted since its latest put, and then it misses |
| `BoundedCache.PutThenGet` | backend/app/core/lru.py:98-105 | a value put is found for as long as the TTL given with it says, the map's own when none is given; a TTL of zero or none never runs out |
| `BoundedCache.GetLeaves` | backend/app/core/lru.py:66-80 | a key `get` does not find is gone, expired or not; one it finds becomes the most recently used; no other entry changes |
| `BoundedCache.LiveGoLast` | backend/app/core/lru.py:157-176 | a put drops nothing while there is room, and a live entry only when no expired one is left to drop |
| `BoundedCache.MissingMeansExpiredOrEvicted` | backend/app/core/lru.py:157-176 | a key put and not popped or cleared is missing only because it expired or was evicted |
| `BoundedCache.EvictedStaysAway` | backend/app/core/lru.py:170-176 | an evicted key stays away until its next put |
| `BoundedCache.StoreIsBounded` | backend/app/core/lru.py:98-105 | after every put the size is at most the larger of `max_entries` and one plus the number of pinned entries |
| `BoundedCache.StoreKeepsPinned` | backend/app/core/lru.py:149-176 | an unexpired entry its owner pins is never removed by a put of another key |
| `BoundedCache.OrderIsByLastUse` | backend/app/core/lru.py:78-104 | the entry order is at all times the order of last use |
| `BoundedCache.EvictedMeansOvertaken` | backend/app/core/lru.py:170-176 | without TTLs and pins a key is evicted only after at least `max_entries - 1` distinct other keys were used since its last use |
| `BoundedCache.OverwriteWhenFullShrinks` | backend/app/core/lru.py:98-105 | room is made before the key is looked up: overwriting a key of a full map evicts another one and leaves a free slot |
| `BoundedCache.RoomFacts` | backend/app/core/lru.py:157-176 | making room drops expired entries without asking their owner, then only entries the owner does not pin, and changes no value |
| `BoundedCache.BoundedTTLMap.constructor` | backend/app/core/lru.py:50-61 | an empty map with at least one slot |
| `BoundedCache.BoundedTTLMap.Get` | backend/app/core/lru.py:66-80 | the method on the live dictionary is `Lookup`, with hits and misses counted |
| `BoundedCache.BoundedTTLMap.CanEvict` | backend/app/core/lru.py:149-155 | a missing or raising predicate allows eviction |
| `BoundedCache.BoundedTTLMap.DropExpired` | backend/app/core/lru.py:161-168 | the first loop drops expired entries, oldest first, only until there is room |
| `BoundedCache.BoundedTTLMap.EvictLru` | backend/app/core/lru.py:169-176 | the second loop drops evictable entries, least recently used first, only until there is room |
| `BoundedCache.BoundedTTLMap.MakeRoom` | backend/app/core/lru.py:157-176 | both loops together are `WithRoom`; every dropped entry is counted once |
| `BoundedCache.BoundedTTLMap.Put` | backend/app/core/lru.py:98-105 | the method on the live dictionary is `Store` |
| `BoundedCache.BoundedTTLMap.Pop` | backend/app/core/lru.py:107-109 | the key is gone and its value, expired or not, is returned |
| `BoundedCache.BoundedTTLMap.Clear` | backend/app/core/lru.py:111-112 | the map is empty |
| `KeyDerivation.DeriveKey` | backend/app/core/security.py:180-188 | the loop computes the first `length` bytes of T(1) then T(2) then ... (section 2.3 of RFC 5869) for lengths up to 255 * 32 and raises `ValueError` beyond |
| `KeyDerivation.ShorterIsPrefix` | backend/app/core/security.py:184-188 | a shorter key is a prefix of a longer one, and the length is the one asked for |
| `KeyDerivation.ByteOfOkm` | backend/app/core/security.py:184-188 | byte i of the output is byte i mod 32 of block T(i div 32 + 1) |
| `KeyCache.KeyComesFrom` | backend/app/core/security.py:191-205 | every key returned was derived from the master in force at some earlier call, with no cache clear since and its TTL not over |
| `KeyCache.TransparentWithoutRotation` | backend/app/core/security.py:191-205 | while the master key does not change, the cache cannot be told from deriving afresh |
| `KeyCache.FreshAfterTtl` | backend/app/core/security.py:158-205 | with a positive TTL every call at least that long after the last rotation uses the new master's key |
| `KeyCache.FreshAfterClear` | backend/app/core/security.py:170-177 | after a clear that follows the last rotation every call uses the new master's key |
| `KeyCache.ZeroTtlIsStaleForEver` | backend/app/core/lru.py:100-101 | with a TTL of zero or none, a key cached before a rotation is returned at every later time |
| `KeyCache.KeyIsOneBlock` | backend/app/core/security.py:180-204 | a derived key is one HMAC block: HMAC(HMAC(salt, master), purpose followed by the byte 1), the purpose being `jobhunter:<scope>:v1` |
| `KeyCache.PurposeNamesScope` | backend/app/core/security.py:202-203 | no two scopes have the same purpose |
| `KeyCache.CacheIsBounded` | backend/app/core/security.py:191-205 | however many scopes are used, the cache never holds more keys than its cap |
| `KeyCache.KeyRing.FernetFor` | backend/app/core/security.py:191-205 | the method on the live cache is `Fernet`, deriving through `DeriveKey` only on a miss |
| `KeyCache.KeyRing.ClearKeyCache` | backend/app/core/security.py:170-177 | the cache is empty, the master stays |
| `Breaker.RefusedIffEnoughRecentFailures` | backend/app/services/ai_client.py:426-441 | after any history, collapsed slices included, a call is refused iff the failures that count since the last success reach the threshold and the latest is younger than the cooldown |
| `Breaker.ThresholdBelowOneRefusesWithoutFailures` | backend/app/services/ai_client.py:426-429 | with a threshold of zero or less, a breaker without failures that count refuses exactly while the clock itself is below the cooldown, any other one exactly while its last failure is younger than the cooldown |
| `Breaker.CountsFailures` | backend/app/services/ai_client.py:431-441 | count, last error and, from the threshold on, opening time read off the failures that count, on every history |
| `Breaker.CollapsedSliceIsOneFailure` | backend/app/services/ai_client.py:488-516 | a slice of any number of failures, collapsed, refuses the same calls as its last failure alone after every later history |
| `Breaker.FailedSliceCountsOnce` | backend/app/services/ai_client.py:488-516 | after any history a collapsed slice of failures adds exactly its last failure to the failures that count |
| `Breaker.CollapseAfterMixedSlice` | backend/app/services/ai_client.py:498-516 | after any history and with any outcomes in the slice, overlapping collapses included, the count becomes the smaller of the failures that count and baseline + 1; the error stays, and the breaker is open iff it was and baseline + 1 reaches the threshold |
| `Breaker.Breaker.Refuses` | backend/app/services/ai_client.py:426-429 | the object's test is the one of the reference |
| `Breaker.Breaker.RecordSuccess` | backend/app/services/ai_client.py:431-434 | everything is reset |
| `Breaker.Breaker.RecordFailure` | backend/app/services/ai_client.py:436-440 | the failure is counted and restarts the cooldown at the threshold |
| `Breaker.Breaker.CollapseSliceFailures` | backend/app/services/ai_client.py:498-516 | the count drops to baseline + 1, never rises, and the opening time stays |
| `Gateway.AtMostThreeExtraSends` | backend/app/services/ai_client.py:1571-1576 | for every provider and every rpm setting a call ends after at most `attempts + 3` sends; the first asks for the given budget, 4000 by default, within the user's ceiling, in the given JSON mode; it sends at least once iff the first acquisition does not raise |
| `Gateway.CrashedIffNotPermitted` | backend/app/core/rate_limiter.py:58-68 | an acquisition that raises ends the call where it stands: the requests are a prefix of those of a call the limiter never fails, and the call crashes, with nothing recorded, iff an acquisition for one of those raises |
| `Gateway.TokensNeverExceedCeiling` | backend/app/services/ai_client.py:794-803 | no `max_tokens` sent exceeds the user's ceiling when it is positive, nor the larger of the budget asked for and 128000 otherwise, through any mix of halvings and escalations; all are at least 1 |
| `Gateway.AnsweredIffUsable` | backend/app/services/ai_client.py:2061-2140 | a call succeeds iff one of the replies it waited for parses in JSON mode, or is text that was not cut off; that one is its last and the first such one |
| `Gateway.FailureRecordedIff` | backend/app/services/ai_client.py:2041-2146 | a call that fails with the gateway's own error is counted by the breaker, once, iff its last reply was not a non-retryable error other than 401 and 403 |
| `Gateway.RequestsChangeOnlyAsAsked` | backend/app/services/ai_client.py:1998-2136 | each request differs from the one before exactly as the reply between them asks for: the first field a 400 complains about that can still be changed, a budget raised four- or twofold up to the stop after a cut-off answer, JSON mode dropped after an empty one, nothing otherwise |
| `Gateway.GoesOnIffRecoverable` | backend/app/services/ai_client.py:1571-2146 | exactly when a call goes on after a reply, told by its requests and replies alone: a 400 with fewer than three fix-ups spent and something left to fix, a malformed body or odd answer once, a cut-off answer while the stop is not reached, an empty one while JSON mode is on, 429, 5xx and network failures while attempts are left; otherwise that reply is the last and gives the outcome |
| `Gateway.GivesUpOnAnswersOnlyIf` | backend/app/services/ai_client.py:1189-1213 | a call gives up on unusable answers only with its attempts used up, after a blocked answer, after one cut off at the stop, or when the plain retry was spent and there was no JSON mode to drop |
| `Gateway.SwitchesNeverComeBack` | backend/app/services/ai_client.py:1998-2136 | between any two requests of a call, however far apart, JSON mode and temperature are only ever dropped and the renamed budget parameter stays renamed |
| `Gateway.OutageUsesEveryAttempt` | backend/app/services/ai_client.py:1932-2049 | against a provider that is down, a call whose acquisitions are granted sends the same request exactly `attempts` times and records one failure |
| `Gateway.RefusedIffRecentFailures` | backend/app/services/ai_client.py:1447-1474 | after any run of calls and parallel slices, collapsed or not, the next call is refused before any send iff a missing key, an entitlement limit or the daily budget refuses it or the failures that count say so; refused calls record nothing, others at most one event |
| `Gateway.CallRecords` | backend/app/services/ai_client.py:1462-2155 | what a call adds to the breaker's history: its success, one failure at the time it ended unless its last reply was a plain client error, and nothing when it was refused or crashed |
| `Gateway.Client.ChatCompletion` | backend/app/services/ai_client.py:1447-2155 | a whole call on the live breaker and the live rate limiter, under any rpm settings: each send directly preceded by one granted acquisition and none granted without a send, at least one send iff the rpm is at least one, refused calls touch neither, the breaker takes exactly the outcome's event |
| `Gateway.Client.Acquire` | backend/app/core/rate_limiter.py:24-75 | one `wait_and_acquire(1)` under the rpm last set: granted iff the rpm is at least one, otherwise the index error |
| `Gateway.Client.Attend` | backend/app/services/ai_client.py:1571-2140 | the attempt loop sends the requests and reaches the outcome of the recursive reference `Chat`, with as many granted acquisitions as sends |
| `Gateway.Client.OnReply` | backend/app/services/ai_client.py:1932-2140 | each kind of reply leads to the next state or the outcome of `React` |
| `Gateway.Client.OnUnusable` | backend/app/services/ai_client.py:2089-2140 | empty, cut-off and unparseable answers: escalation, dropped JSON mode, one plain retry, or giving up |
| `Gateway.Client.FixUp` | backend/app/services/ai_client.py:1998-2040 | the four fix-ups of a 400 in order, at most one applied, Google payloads with fewer of them |
| `Guardrails.Validate` | backend/app/services/ai_guardrails.py:632-671 | the data is returned iff it is an object whose every field satisfies every rule, a NaN counting as inside every range; otherwise nothing, and the issues list every violated rule; it conforms iff it is returned and holds no NaN where a range is asked for |
| `Guardrails.ValidateField` | backend/app/services/ai_guardrails.py:637-669 | the branches for one field raise the issues of the reference, in order |
| `Guardrails.FieldIssuesIffNotOk` | backend/app/services/ai_guardrails.py:637-669 | a field draws no issue iff it satisfies required, type, length, range and choices, or is a NaN that satisfies all of them but the range |
| `Guardrails.SchemaIssuesIffNotConforming` | backend/app/services/ai_guardrails.py:632-671 | a document conforms iff it draws no issue and holds no NaN where a range is asked for; every schema issue is an error |
| `Guardrails.IssueIffRuleBroken` | backend/app/services/ai_guardrails.py:637-669 | each issue code is raised exactly when its rule is broken, as an error of that field |
| `Guardrails.SchemaIssuesInOrder` | backend/app/services/ai_guardrails.py:632-671 | the issues of a document are those of its fields, in the order of the schema |
| `Guardrails.AcceptedIffHonoured` | backend/app/services/ai_guardrails.py:757-790 | an answer honours the contract, coerced, iff it is accepted and holds no NaN where a range is asked for; it is accepted iff it meets the schema as enforced and draws no error from any check or the ledger; a rejection names at least one error |
| `Guardrails.RejectedForEveryError` | backend/app/services/ai_guardrails.py:757-790 | what an answer is rejected for: no object, that alone; a broken schema, its issues alone; otherwise every error the checks and the ledger raise, each as often as raised and in order, and no warning; an accepted answer carries everything found |
| `Guardrails.FindingsInOrder` | backend/app/services/ai_guardrails.py:772-780 | the findings are those of the checks in their order, then the ledger's |
| `Guardrails.CallsAreBounded` | backend/app/services/ai_guardrails.py:744-746 | at most `repairs + 1` model calls for every model, none when `repairs` is negative; giving up means all of them were used |
| `Guardrails.OutcomeIsLastAnswer` | backend/app/services/ai_guardrails.py:746-795 | the last reply decides: unavailable, with its error, iff the model was; returned iff it honours the contract or misses it only by a NaN in a range; otherwise the run fails with what that answer was rejected for |
| `Guardrails.ReturnedHonoursContract` | backend/app/services/ai_guardrails.py:776-784 | a returned result draws no error and satisfies every field rule iff it holds no NaN where a range is asked for, and every rule but that range in any case; its report passed, counts the calls and scores between 0 and 100 |
| `Guardrails.ReturnedReport` | backend/app/services/ai_guardrails.py:776-784 | the result returned is the last answer, coerced; its report holds all that was found, and each warning costs three points of a hundred |
| `Guardrails.ScoreCounts` | backend/app/services/ai_guardrails.py:701-708 | the score is 100 less twelve for each error and three for each warning, at least zero; passed iff there is no error |
| `Guardrails.NaNIsReturned` | backend/app/services/ai_guardrails.py:660-665 | a float asked to lie between 0 and 1 that comes back as NaN is returned at the first call |
| `Guardrails.RepairsNameTheViolations` | backend/app/services/ai_guardrails.py:763-816 | every repair prompt lists the first violations the previous answer was rejected for, at least one, all errors: all of them iff there are at most eight, and eight otherwise |
| `Guardrails.NinthViolationIsNotListed` | backend/app/services/ai_guardrails.py:807-816 | an answer that lacks nine required fields is repaired with a prompt that does not name the ninth |
| `Guardrails.RunGuardedTask` | backend/app/services/ai_guardrails.py:740-795 | the loop makes the calls and reaches the outcome of the recursive reference |
| `Guardrails.JudgeAnswer` | backend/app/services/ai_guardrails.py:757-790 | coercion, schema, checks and ledger in order on one answer |
| `LeaseQueue.DoneIffCompletedOnce` | backend/app/services/job_queue.py:470-522 | at every moment of an interleaving a row is `done` iff the work was completed, once, since its last enqueue: this holds iff no write without a compare-and-set (no-handler failure, drain, retry, answer, closing) meets a finished row |
| `LeaseQueue.EffectOnCompletions` | backend/app/services/job_queue.py:108-918 | which statements make a row `done` and which end that: only a completion of an in-flight row, a new enqueue, and a write that does not look at the row again |
| `LeaseQueue.RunIsSound` | backend/app/services/job_queue.py:108-918 | every interleaving in which the writes without a compare-and-set meet the row as they read it keeps the invariant |
| `LeaseQueue.ChargedAtMostOncePerEnqueue` | backend/app/worker.py:526-552 | for every enqueue: at most one charge of the automation quota, and only if that enqueue has an accepted automatic completion, of which there is at most one, however late the charge lands |
| `LeaseQueue.ChargePaysOwnCompletion` | backend/app/worker.py:536-552 | in every run at all, each charge follows the accepted automatic completion of the same run for the same enqueue, with no other charge or completion of that run in between |
| `LeaseQueue.RunChargesItsOwnEnqueue` | backend/app/worker.py:536-552 | a run whose completion is accepted charges the enqueue it completed, even when the row was enqueued anew before the charge |
| `LeaseQueue.StaleRetryCompletesTwice` | backend/app/api/routers/ops.py:375-386 | two overlapping operator retries: the second write meets a row finished in between, and the same enqueue is completed and charged again |
| `LeaseQueue.CountersAreCounts` | backend/app/services/job_queue.py:25-49 | `attempts` counts the failures since the last enqueue, retry or user answer, `paused_count` the pauses since the last enqueue or retry, `reclaim_count` the re-queued expiries since the last enqueue, each exactly and within its cap |
| `LeaseQueue.ClaimsAreBounded` | backend/app/services/job_queue.py:25-49 | since its last enqueue, retry or answer a row is claimed at most max(1, max_attempts) + 12 + max_reclaims times; since its last enqueue at most max(1, max_attempts) * (1 + retries + answers) + 12 * (1 + retries) + max_reclaims times |
| `LeaseQueue.NextIsSound` | backend/app/services/job_queue.py:108-918 | every statement of the protocol that meets what it read keeps the invariant: lock, lease and status agree, the budgets hold, claims and outcomes alternate |
| `LeaseQueue.LateOutcomesChangeNothing` | backend/app/services/job_queue.py:388-522 | a worker that does not hold the row changes nothing, with any number of late heartbeats and outcomes |
| `LeaseQueue.LateOutcomesAreUnobservable` | backend/app/worker.py:478-524 | in a whole run the late outcomes of a deposed worker could as well not have happened |
| `LeaseQueue.DeposedRunChangesNothing` | backend/app/worker.py:451-556 | a run that no longer holds its row when its handler returns leaves it as everybody else left it, whatever the handler's outcome |
| `LeaseQueue.HeldRunEnds` | backend/app/worker.py:478-545 | how a run that still holds its row leaves it, column by column: a retryable failure or a missed deadline costs an attempt and re-queues the row for its retry time while the count is below `max_attempts`, else it is dead; a permanent failure kills it whatever the budget; an outage pauses it, costs no attempt and dead-letters after twelve pauses; a question parks it; a result finishes it; lock and lease are always given back |
| `LeaseQueue.HeldRunCharges` | backend/app/worker.py:526-552 | an accepted automatic result is charged to the enqueue it was accepted for, after whatever others did in between, and a run started by hand is not |
| `LeaseQueue.RunBegins` | backend/app/worker.py:451-467 | a queued row that is not due is left alone, one that is due is locked and leased before the handler runs, and without a handler the row dies one failure later |
| `LeaseQueue.LeaseLasts` | backend/app/services/job_queue.py:333-441 | who gets a lease (a queued due row by id, a selected row while still queued, a heartbeat of the holder) and how long it lasts: a reaper takes the row iff the lease has been over for more than the safety margin, re-queues it with one more reclaim while both budgets last, and kills it otherwise |
| `LeaseQueue.BackInQueue` | backend/app/services/job_queue.py:139-166 | a new enqueue, a resume, an operator retry and a user's answer each leave a row that a claim takes exactly from its due time on; which counters, budgets and results each of them gives back or keeps |
| `LeaseQueue.ClosedForGood` | backend/app/services/job_queue.py:694-712 | an expired parked row is dead and released, with every counter and its result as it was |
| `LeaseQueue.HeldWhileLeaseLives` | backend/app/services/job_queue.py:715-918 | while the lease is not over by more than the safety margin, no claim, reaper, outcome or charge of anybody else changes the row |
| `LeaseQueue.NoHandlerCanCompleteTwice` | backend/app/worker.py:464-467 | after the unfenced failure of a finished row and an operator retry, the same enqueue is completed a second time |
| `LeaseQueue.SupersededRunWinsIffIdShared` | backend/app/services/job_queue.py:82-98 | of a superseded run and the one that claimed the row after it, the superseded one completes the row and the other is refused iff both run under one worker id; otherwise the later run's result stands |
| `LeaseQueue.RetriedRowSurvivesExpiryIff` | backend/app/api/routers/ops.py:365-388 | after an operator retry, a claim and an expired lease the row is queued again iff its reclaim count is below its cap and `max_attempts` is positive, and dead otherwise: the retry keeps the reclaim count |
| `LeaseQueue.PipelineJob.constructor` | backend/app/services/job_queue.py:168-185 | a freshly enqueued row |
| `LeaseQueue.PipelineJob.Reuse` | backend/app/services/job_queue.py:131-154 | only a row read as finished is reused, with all budgets reset; identical work in flight is refused |
| `LeaseQueue.PipelineJob.WriteReuse` | backend/app/services/job_queue.py:139-154 | the write alone, whatever the row has become since it was read: a fresh queued row, unlocked, with all budgets back |
| `LeaseQueue.PipelineJob.ClaimItem` | backend/app/services/job_queue.py:358-385 | a queued, due row is locked and leased, and no budget is spent |
| `LeaseQueue.PipelineJob.TakeSelected` | backend/app/services/job_queue.py:333-346 | the update of the ordinary claim, after its select: a row that is still queued is locked and leased, due or not |
| `LeaseQueue.PipelineJob.RenewLease` | backend/app/services/job_queue.py:388-441 | the lease is extended iff the row is still this worker's |
| `LeaseQueue.PipelineJob.CompleteRun` | backend/app/services/job_queue.py:470-534 | compare-and-set on status and lock: the result is written iff the row is still this worker's |
| `LeaseQueue.PipelineJob.RecordFailure` | backend/app/services/job_queue.py:618-648 | the failure is counted before the budget is applied; the lock is not looked at |
| `LeaseQueue.PipelineJob.PauseRun` | backend/app/services/job_queue.py:537-579 | a pause spends no attempt; the thirteenth dead-letters |
| `LeaseQueue.PipelineJob.NeedInput` | backend/app/services/job_queue.py:651-686 | the row is parked and released, the plan stored when there is one |
| `LeaseQueue.PipelineJob.RecoverStalled` | backend/app/services/job_queue.py:715-918 | an expired lease is re-queued and counted, or dead-lettered once a budget is used up |
| `LeaseQueue.PipelineJob.Resume` | backend/app/services/job_queue.py:582-608 | only rows read as paused are resumed, when due or forced |
| `LeaseQueue.PipelineJob.WriteResume` | backend/app/services/job_queue.py:594-606 | the write alone, whatever the row has become since it was read: queued and due now, nothing else touched |
| `LeaseQueue.PipelineJob.Retry` | backend/app/api/routers/ops.py:375-386 | rows read as dead are re-queued with attempts and pauses reset |
| `LeaseQueue.PipelineJob.WriteRetry` | backend/app/api/routers/ops.py:378-386 | the write alone, whatever the row has become since it was read: queued and due now, no attempts, no pauses |
| `LeaseQueue.PipelineJob.TakeAnswer` | backend/app/api/routers/jobs.py:562-572 | the user's answer re-queues a row read as parked with its failures forgiven; pauses and reclaims stay |
| `LeaseQueue.PipelineJob.WriteAnswer` | backend/app/api/routers/jobs.py:564-570 | the write alone, whatever the row has become since it was read: queued and due now, no attempts, pauses kept |
| `LeaseQueue.PipelineJob.Expire` | backend/app/services/job_queue.py:694-712 | a row read as parked is closed without spending a budget |
| `LeaseQueue.PipelineJob.WriteExpire` | backend/app/services/job_queue.py:694-712 | the write alone, whatever the row has become since it was read: dead and released, no budget touched |
| `LeaseQueue.PipelineJob.Settle` | backend/app/worker.py:478-545 | every outcome of a handler is one fenced statement |
| `LeaseQueue.PipelineJob.RunItem` | backend/app/worker.py:451-556 | a run is an interleaving of protocol steps: claim if queued, everybody else's steps while the handler runs, one fenced outcome, and a charge iff its own completion landed |
| `SlotBudget.CandidateIsMostUrgent` | backend/app/services/job_queue.py:312-330 | a claim finds an item iff one is runnable, and no runnable item of an unblocked pipeline is more urgent by priority, schedule and id |
| `SlotBudget.ClaimTakesFirst` | backend/app/services/job_queue.py:312-346 | a claim leases exactly one row iff any is queued, due, in scope and of a pipeline without budget or with a free slot: the one with the smallest priority number, then the earliest schedule, then the smallest id; every other row stays as it is |
| `SlotBudget.LiveCountCountsHolders` | backend/app/services/job_queue.py:276-290 | the count compared with the budget is the number of rows in flight whose lease is absent or not over |
| `SlotBudget.SlotsTakenAndGiven` | backend/app/services/job_queue.py:276-290 | leaving the flight gives one slot back; a claim by id takes one, a heartbeat takes one iff the lease was over |
| `SlotBudget.BudgetHoldsIff` | backend/app/services/job_queue.py:256-385 | the slot budget bounds a pipeline's live leases at all times of every run of one-at-a-time claims iff no heartbeat revives an expired lease whose slot was given away and no claim by id takes a row of a full pipeline |
| `SlotBudget.NextStaysWithinIff` | backend/app/services/job_queue.py:256-385 | the same for one step |
| `SlotBudget.CountFalls` | backend/app/services/job_queue.py:276-283 | time alone only frees slots |
| `SlotBudget.RevivalOvershoots` | backend/app/services/job_queue.py:276-283 | a claim and a late heartbeat after which the pipeline holds one live lease more than its budget |
| `SlotBudget.ClaimByIdOvershoots` | backend/app/services/job_queue.py:358-385 | on a full pipeline the ordinary claim takes nothing, and a claim by id makes one live lease more than the budget |
| `Heartbeat.IntervalIsAThirdOfLease` | backend/app/worker.py:356-368 | the heartbeat interval is at least one second, and at most a third of the lease iff the lease is at least three seconds |
| `Heartbeat.IntervalIsConfiguredUpToAThird` | backend/app/worker.py:356-368 | the interval is the configured one wherever that lies between a second and a third of the lease, a second when less was asked for, and a third of the lease when more was |
| `Heartbeat.HealthyRunIsNeverReclaimed` | backend/app/worker.py:377-416 | with a lease of at least 3 s, a run that never misses three beats in a row and is delayed by at most the safety margin between renewals keeps its row on every timed run, and its completion is accepted |
| `Heartbeat.InTimeKeepsRow` | backend/app/services/job_queue.py:758-779 | a run keeps its row if every beat comes before the lease is over by more than the safety margin |
| `Heartbeat.WatchedRunKeepsRowIff` | backend/app/services/job_queue.py:758-779 | over whole runs where a reaper looks once at the end of every turn and nobody else acts, that condition is exact: the run holds its row iff every turn ended in time, and a lost row stays lost |
| `Heartbeat.HealthyHeartbeatIsNeverLost` | backend/app/worker.py:409-416 | the heartbeat of such a run never finds the row in other hands |
| `Heartbeat.HeartbeatLease` | backend/app/worker.py:377-416 | the loop renews at every beat that reaches the database, survives errors, and stops at the first beat that finds the row in other hands |
| `Subscription.ResolveAbsorbs` | backend/app/core/entitlements.py:318-375 | resolving at an earlier and then at a later time leaves the same row as resolving at the later time alone |
| `Subscription.ExpiresIff` | backend/app/core/entitlements.py:318-375 | exactly which rows expire, read off status and dates: active and trialing ones iff trial or period end is reached, losing their grace; past_due and canceled ones iff no grace is left; no other |
| `Subscription.EntitledIff` | backend/app/core/entitlements.py:433-450 | exactly when a user has a paid plan, read off the stored row: a known plan, and active or trialing with neither end reached, or past_due, canceled or expired within grace; it is free otherwise |
| `Subscription.CountsChangedRows` | backend/app/core/entitlements.py:408-430 | the sweep's count is the number of rows it changed |
| `Subscription.ScheduleIsUnobservable` | backend/app/core/entitlements.py:378-430 | any schedule of lazy reads and batch sweeps gives the same row and plan at every later time |
| `Subscription.FreeIsAbsorbing` | backend/app/core/entitlements.py:433-450 | without a billing write a plan that became free never becomes paid again, whatever is swept in between |
| `Subscription.CountIsPositiveIff` | backend/app/core/entitlements.py:408-430 | the sweep's count is positive iff some row changed |
| `Subscription.SweepIsIdempotent` | backend/app/core/entitlements.py:408-430 | a second sweep at the same time changes nothing |
| `Subscription.SubscriptionRow.HasExpired` | backend/app/core/entitlements.py:318-375 | the in-place state machine is `Resolve`; it reports whether the row changed |
| `Subscription.ExpireSubscriptions` | backend/app/core/entitlements.py:408-430 | every row is resolved, the changed ones are counted, and a commit happens iff there are any |
| `MetricsRegistry.RegistryTracksWrites` | backend/app/core/metrics.py:124-142 | for a name written through one kind, at all times: stored series are its recency entries, those are the most recently written ones up to the cap, created = live + evicted, and each cell is the fold of the writes since its creation |
| `MetricsRegistry.StoredIffRecentlyWritten` | backend/app/core/metrics.py:124-142 | for a name written through one kind: a series is stored iff fewer than the cap of other series of its name were written since its last write |
| `MetricsRegistry.JustWrittenIsStored` | backend/app/core/metrics.py:124-142 | the series just written is stored and listed, never the one evicted, whatever kinds its name is written through |
| `MetricsRegistry.CounterIsSumOfIncrements` | backend/app/core/metrics.py:162-169 | for a name written through one kind: each counter equals the sum of the increments since its series was last created |
| `MetricsRegistry.FoldOfGauge` | backend/app/core/metrics.py:177-183 | a gauge holds its last value |
| `MetricsRegistry.FoldOfHistogram` | backend/app/core/metrics.py:190-206 | a stored bucket counts the observations that do not exceed its bound, once per listing of the bound: it is cumulative already |
| `MetricsRegistry.OtherNameUntouched` | backend/app/core/metrics.py:124-142 | a write to one name changes nothing of another |
| `MetricsRegistry.SeriesStayListedIff` | backend/app/core/metrics.py:124-142 | for any mix of kinds: at all times every stored series of a name, in any store, is in its recency list iff no write pops an oldest entry that a store of another kind holds |
| `MetricsRegistry.ListedIsBounded` | backend/app/core/metrics.py:134-142 | while that holds, each kind stores at most the cap of series of a name |
| `MetricsRegistry.OneKindNeverLeaks` | backend/app/core/metrics.py:124-142 | a name written through one kind only never meets the condition |
| `MetricsRegistry.TwoKindsLeakFromEmpty` | backend/app/core/metrics.py:136-142 | a run from the empty registry, for every cap: a counter and then `cap` gauges of one name leave a stored counter that is in no list and not counted as evicted |
| `MetricsRegistry.ObserveAfterTouch` | backend/app/core/metrics.py:194-206 | creating, touching and then observing comes to observing first: the entry is never evicted in between |
| `MetricsRegistry.Metrics.MarkTouched` | backend/app/core/metrics.py:124-142 | the eviction loop on the live dictionaries trims to the cap |
| `MetricsRegistry.Metrics.Counter` | backend/app/core/metrics.py:162-169 | one counter write on the live dictionaries |
| `MetricsRegistry.Metrics.Gauge` | backend/app/core/metrics.py:177-183 | one gauge write on the live dictionaries |
| `MetricsRegistry.Metrics.Observe` | backend/app/core/metrics.py:190-206 | one observation on the live dictionaries |
| `MetricsRegistry.Metrics.AddToBuckets` | backend/app/core/metrics.py:203-206 | the bucket loop adds one to every bound the value does not exceed |
| `Labels.ParseRecoversLabels` | backend/app/core/metrics.py:145-152 | for names without an equals sign a left-to-right parser of the Prometheus text format, which reads one line, recovers exactly the sorted labels iff no label holds a line break, and refuses the text otherwise |
| `Labels.RenderIdentifiesLabelSets` | backend/app/core/metrics.py:116-152 | two label dictionaries render alike, and have the same series key, iff they hold the same labels |
| `Labels.LessIff` | backend/app/core/metrics.py:145-152 | the order labels are sorted in: where two names first differ, by the smaller character or by ending there |
| `Labels.EqualsSignInNameCollides` | backend/app/core/metrics.py:145-152 | with an equals sign in a name two different label sets render alike |
| `Labels.UnescapeInvertsEscape` | backend/app/core/metrics.py:230-232 | reading an escaped value up to its closing quote gives the value back, whatever follows |
| `Labels.ChainIsOnePass` | backend/app/core/metrics.py:145-232 | the chained replacements equal escaping every character once: no later one touches what an earlier one wrote |
| `Labels.LineBreaksAfterEscaping` | backend/app/core/metrics.py:145-232 | `escape_label_value` never leaves a line break; the replacements in `_render_labels` let every one through |
| `BodyLimit.DeliveredBytesWithinCap` | backend/app/core/middleware.py:489-506 | for every app and stream, the body bytes that reach the app never exceed the cap |
| `BodyLimit.RejectedIffOver` | backend/app/core/middleware.py:489-506 | a request is rejected iff one of the messages the app asked for takes the total past the cap |
| `BodyLimit.RejectedIffTooManyBytes` | backend/app/core/middleware.py:489-506 | for a cap of zero or more: rejected iff the bytes asked for exceed the cap |
| `BodyLimit.OnlyThe413GoesOut` | backend/app/core/middleware.py:508-535 | after rejection the server sees what was sent before it, the one 413 start and its body, and no later response start or body |
| `BodyLimit.OneResponseAfterRejection` | backend/app/core/middleware.py:508-535 | rejection starts exactly one response on top of those the app had started |
| `BodyLimit.AbortedIffOver` | backend/app/core/middleware.py:489-506 | each receive is aborted iff its message is a request message past the cap, the first time and every later time |
| `BodyLimit.WithinCapIsTransparent` | backend/app/core/middleware.py:489-513 | within the cap both channels pass everything through, in order |
| `BodyLimit.DeclaredContentLength` | backend/app/core/middleware.py:430-442 | the largest all-digit part of all header values, nothing when there is none, an error iff some all-digit part holds a superscript digit or more than 4300 digits |
| `BodyLimit.SplitAtCommas` | backend/app/core/middleware.py:437-438 | the parts of a header value joined by commas give it back, and none holds a comma |
| `BodyLimit.StripKeepsInk` | backend/app/core/middleware.py:438-439 | stripping removes white space only, and all of it at both ends |
| `BodyLimit.DigitsAre` | backend/app/core/middleware.py:439-441 | a candidate is a stripped part that holds nothing but digits, superscripts one to three included |
| `BodyLimit.CandidatesAre` | backend/app/core/middleware.py:436-441 | the candidates are those of all header values |
| `BodyLimit.IntOfDecimal` | backend/app/core/middleware.py:441-442 | reading the decimal form of a number gives the number; it is refused iff it has more than 4300 digits |
| `BodyLimit.BodySizeLimit.Call` | backend/app/core/middleware.py:474-522 | a declared length over the cap is answered without the app; otherwise the channels are those of the reference, the app's ending reaches the caller except for the unwind signal and for an error after the 413, and each rejection is counted once |
| `BodyLimit.Exchange.CountedReceive` | backend/app/core/middleware.py:489-506 | the closure's variables after one receive |
| `BodyLimit.Exchange.GuardedSend` | backend/app/core/middleware.py:508-513 | the closure's variables after one send |
| `Luhn.LuhnOk` | backend/app/core/redaction.py:120-130 | the loop over the reversed string decides the Luhn sum modulo ten |
| `Luhn.AcceptsIffSumEndsInZero` | backend/app/core/redaction.py:120-130 | a digit string is accepted iff the sum the standard prescribes, every second digit from the right doubled and its decimal digits added, ends in zero |
| `Luhn.CatchesSingleError` | backend/app/core/redaction.py:120-130 | an accepted digit string with one digit changed is rejected |
| `Luhn.CatchesSwapIff` | backend/app/core/redaction.py:120-130 | swapping two neighbouring digits goes unnoticed iff they are equal or 0 and 9 |
| `Luhn.UniqueCheckDigit` | backend/app/core/redaction.py:120-130 | every digit string has exactly one digit that completes it |
| `Recency.BoundedTouch` | backend/app/core/metrics.py:134-142 | a list cut to its last n entries after every touch stays the end of the uncut list |
| `Recency.RecentIffFewSince` | backend/app/core/metrics.py:134-142 | a key is among the n most recent iff fewer than n distinct other keys were used since |
| `Recency.OvertakenBy` | backend/app/core/middleware.py:643-646 | everything behind a key in recency order was used after it |

## Left out

- SlotBudget.BudgetHoldsIff: counting and claiming are one step; two processes that count at the same time can overshoot a budget besides.
- LeaseQueue.DoneIffCompletedOnce: counts completions since the last enqueue, because `enqueue` reuses finished rows for a deliberate re-run. A write without a compare-and-set sets everything it assigns: an ORM that leaves out attributes whose value did not change since the read, and the JSON payload written back as it was read, are not modelled.
- LeaseQueue.RunIsSound: asks that such a write meets the row as it was read; when it does not, `DoneIffCompletedOnce` still says what becomes of completions, nothing is said of the counters.
- LeaseQueue.HeldWhileLeaseLives: leaves out writes by somebody who read the row before the current worker claimed it; so do the heartbeat theorems.
- LeaseQueue.PipelineJob.Settle: probing ownership and writing the outcome are one step.
- LeaseQueue.PipelineJob.RecoverStalled: reading a stalled row and its compare-and-set are one step.
- LeaseQueue.PipelineJob.RecordFailure: the backoff delay is a parameter; its formula `min(600, base ** n * 5)` is not part of this model.
- Gateway.Client.ChatCompletion: sleeping between attempts, prompt building, usage accounting and the parsing of bodies and event streams are left out; a reply is its status class, the hints of its error text, its finish reason and whether it is empty or parses. Why a preflight check refuses (missing key, entitlement, daily budget) is a parameter.
- Gateway.Client.Acquire: the rpm changes between acquisitions, not while one is waiting, and no other call competes.
- Gateway.OutageUsesEveryAttempt: speaks of replies that ask for no other request and of granted acquisitions; the others are covered by `GoesOnIffRecoverable` and `CrashedIffNotPermitted`.
- Guardrails.Validate: finite numbers are mathematical, so rounding and the overflow error of `float(value)` on huge integers are not modelled; checks and coercion are pure functions.
- BodyLimit.BodySizeLimit.Call: each send is atomic, requests that are not HTTP (passed through unseen) and the wording of the 413 body are left out.
- KeyCache.KeyRing.FernetFor: the base64 wrapping, the Fernet object and HMAC itself are opaque.
- RequestLimiter.VerdictsAreNaive: for a key the cap has dropped, the reference history restarts at the drop, as the code's does.
- MetricsRegistry.RegistryTracksWrites: asks that a name is written through one kind only; for other names `SeriesStayListedIff` says when the listing holds, the cells are not described. The cap is constant during a run.
- MetricsRegistry.FoldOfHistogram: speaks of the stored buckets; the exposition adds them up a second time and is not claimed to be right.
- Labels.RenderIdentifiesLabelSets: label names and values are strings already; the conversion by `str` is left out.
- Subscription.ScheduleIsUnobservable: strip and lower-casing are an abstract normalisation that maps "expired" to itself; trial and period ends are optional times.
- RpmLimiter.TokenBucketRateLimiter.WaitAndAcquire: fixed rpm and no competing caller, as a waiting loop can otherwise starve.
- `peek`, `stats` and the listing methods of the cache, `clear` and `stats` of the request limiter: reads and resets that would only add easy members.
- Regular-expression redaction around the Luhn check, Fernet, bcrypt and JWT, the ORM, FastAPI wiring, settings, the vocabulary tables and the frontend.
- The crash backoff and respawning of worker tasks, the watchdog's probe and the user-action deadline: only their effect on a row is modelled.
