# Verified models of the SignalEngine trading core

A Dafny model of the parts of the trading engine whose correctness rests on interleavings, long runs or
exact arithmetic, with proofs of what they are for:

- **Lock-free containers** (`RingChannel`, `SignalArena`, `LockFreeHashMap`). Each thread is a program counter
  with locals, each atomic load, store or compare-exchange one step under sequential consistency; theorems
  quantify over every sequence of steps. Beside each machine stands the object as one caller uses it. The ring
  refines a bounded FIFO.
- **Tenant scheduling** (`Tiers`, `FairScheduler`, `RateLimiter`, `ExecutionHandler`). Weighted credits with a
  ranking function for fairness, the sliding window against the naive count, and the batch loop that joins them.
- **Exact decimals** (`Decimal`, `DecimalText`). Parsing, printing, comparison and rounding in 128-bit arithmetic
  against exact rationals.
- **Persisted nonces** (`NonceStore`). The lock, read, write, rename protocol under crashes at any step.
- **Circuit breaker** (`CircuitBreaker`). The timed three-state machine over whole call histories.
- **Dead letter queues** (`DeadLetters`, `DeadLetterQueue`, `BoundedDlq`). The retry worker interleaved with
  everything else, and conservation under the overflow policies.
- **Latency statistics** (`LatencyStats`). The unsigned variance, safe by Cauchy-Schwarz over the whole history.
- **Fill estimator** (`OrderBook`, `FillModel`). Piecewise scores and the order-book walk over the reals.

`Wrappers`, `Arithmetic`, `MapSums`, `Words`, `PowersOfTen`, `Digits` and `Reals` hold what these share.
`dafny verify dfyconfig.toml` checks the whole project.

## Where the code and its promises part

- `insert` of the hash map is documented as "insert or update" but keeps an existing key's value
  (`crates/core/lock_free.rs:44`, `64-68`). The model follows the code; `FirstValueWins` states it.
- `round_to_multiple` doubles the remainder in 128 bits. Half-up rounding is right exactly when that does not
  overflow (`RoundToMultipleCorrect`, with the input in `HalfUpCanMiss`).
- `round_dp` widens without a check: the value is kept exactly when the widened units fit (`RoundDpCorrect`, with
  the input in `WideningCanWrap`).
- `Display` of i128::MIN does not parse back (`PrintThenParse`).
- The breaker's recovery time is cut to 64 bits of nanoseconds (`TimeoutHonouredIff`).
- The sum of squared latencies wraps: 74 recorded errors in a row suffice (`ErrorStreak`); the exact condition is
  in `VarianceCorrectIff`.
- An arena allocation is aligned relative to the buffer, which is only 64-byte aligned: addresses are aligned
  exactly for alignments up to 64 (`AlignmentHonouredIff`, with the input in `CoarseAlignmentCanMiss`).
- `parse` cuts the length of the fraction to 32 bits (`ParseExactIff`, with the input in `ParseCanMisread`).
- Recovery from overflow does nothing unless overflow was loaded from disk (`RecoveryMovesNothing`).

Unchecked integer arithmetic wraps, as in an optimised build.

## Model

| member | source | states |
|---|---|---|
| `RingChannel.RingSafety` | crates/core/zero_copy.rs:218-254 | In every interleaving of one producer and one consumer on a ring of any positive capacity: received is a prefix of sent, at most capacity - 1 values are held, the two slot accesses never meet, every write finds an empty slot and every take a full one, and the whole trace is accepted by a bounded FIFO |
| `RingChannel.RunRefinesFifo` | crates/core/zero_copy.rs:218-254 | From any state satisfying the invariant, the events of any run are a run of the bounded FIFO ending in the ring's contents |
| `RingChannel.StepRefinesFifo` | crates/core/zero_copy.rs:218-254 | Each atomic load, slot access or store of either thread is one FIFO step: full is answered only when full, empty only when empty, a receive returns the oldest value |
| `RingChannel.NextKeepsInv` | crates/core/zero_copy.rs:218-254 | Every step of either thread keeps the invariant tying indices, slots and thread locals to the sent and received sequences |
| `RingChannel.SendSteps` | crates/core/zero_copy.rs:218-234 | An undisturbed send of four producer steps appends the value; two steps when the ring is full change nothing, and full means exactly capacity - 1 held |
| `RingChannel.RecvSteps` | crates/core/zero_copy.rs:238-254 | An undisturbed recv of four consumer steps takes the oldest value and empties its slot; two steps on an empty ring change nothing |
| `RingChannel.ZeroCopyChannel.constructor` | crates/core/zero_copy.rs:202-214 | A new channel of positive capacity is the empty ring |
| `RingChannel.ZeroCopyChannel.Send` | crates/core/zero_copy.rs:218-234 | Accepts exactly when fewer than capacity - 1 values are held, then the queue is the old one with the value at the back; the in-place code is the machine's own producer steps |
| `RingChannel.ZeroCopyChannel.Recv` | crates/core/zero_copy.rs:238-254 | Returns a value exactly when the queue is not empty, and it is the front one |
| `RingChannel.ZeroCopyChannel.Len` | crates/core/zero_copy.rs:272-281 | With no call in flight, len is the number of values held, wrapped indices included |
| `RingChannel.RacingLen` | crates/core/zero_copy.rs:272-281 | A len that reads the head in one state and the tail after any further steps of both threads answers the messages sent by the second moment and not received by the first, modulo the capacity; exact if and only if there are fewer than that |
| `RingChannel.LenWraps` | crates/core/zero_copy.rs:276-280 | The two-branch index formula is the difference of the unwrapped counters |
| `Words.MaskClears` | crates/core/zero_copy.rs:131 | Masking with the complement of 2^k - 1 subtracts the remainder modulo 2^k, for every width |
| `SignalArena.MaskAligns` | crates/core/zero_copy.rs:131 | The mask expression in wrapping arithmetic is the least multiple of the power-of-two alignment not below the offset |
| `SignalArena.AlignmentExact` | crates/core/zero_copy.rs:131-132 | For every type layout the language allows and every offset inside an arena, alignment is exact and neither 64-bit sum wraps |
| `SignalArena.ArenaSafety` | crates/core/zero_copy.rs:123-157 | In every interleaving of allocators and resets, with spurious compare-exchange failures, the regions handed out since the last reset are in bounds, aligned and pairwise disjoint |
| `SignalArena.NextKeepsInv` | crates/core/zero_copy.rs:123-157 | Every atomic step keeps the region invariant, and an allocator's step never moves the offset back |
| `SignalArena.FullIsGenuine` | crates/core/zero_copy.rs:134-136 | "Full" is answered only when the request, placed at the next aligned offset, does not fit, still so at the moment of the answer unless a reset intervened |
| `SignalArena.AllocationIsTight` | crates/core/zero_copy.rs:138-147 | A successful attempt returns the least aligned start after the current offset and advances the offset to the region's end |
| `SignalArena.AnswersTell` | crates/core/zero_copy.rs:134-148 | A thread is told of a region exactly when one is handed out, and its call ends exactly with the answer |
| `SignalArena.AlignmentHonouredIff` | crates/core/zero_copy.rs:98-151 | Over all buffer addresses the allocator may return, a region's address is aligned if and only if the type's alignment is at most 64 |
| `SignalArena.CoarseAlignmentCanMiss` | crates/core/zero_copy.rs:98-151 | A failing input: a buffer at address 64 and a type of alignment 128 |
| `SignalArena.SmallAlignmentsHonoured` | crates/core/zero_copy.rs:98-99 | The buffer's 64-byte alignment makes every returned address aligned for alignments up to 64 |
| `SignalArena.SignalArena.Allocate` | crates/core/zero_copy.rs:123-151 | The retry loop: on success the least aligned start, appended to disjoint aligned regions; on failure nothing changes and the request does not fit |
| `SignalArena.SignalArena.Reset` | crates/core/zero_copy.rs:155-157 | Nothing is handed out any more and the offset is 0 |
| `SignalArena.SignalArena.Used` | crates/core/zero_copy.rs:161-163 | Bounds every region handed out, and is at most the capacity |
| `LockFreeHashMap.MapSafety` | crates/core/lock_free.rs:46-115 | In every interleaving of any number of inserters and readers from the empty map: no freed node is dereferenced, no key has two entries, and len is the number of distinct keys less the inserts between their compare-exchange and their increment |
| `LockFreeHashMap.FirstValueWins` | crates/core/lock_free.rs:46-104 | From the moment a key holds a value, in any interleaving: no return of any thread carries another value, and every return on the key of a thread not already answering from before the publication carries it, whoever else is still in flight |
| `LockFreeHashMap.LaterCallsAgree` | crates/core/lock_free.rs:46-104 | With no hypothesis on any thread: once a thread has returned from a call after the publication, all its later returns on the key carry the value |
| `LockFreeHashMap.EveryReturnAgrees` | crates/core/lock_free.rs:46-104 | When no older answer is in flight at all, every return on the key carries the value |
| `LockFreeHashMap.StepMeaning` | crates/core/lock_free.rs:46-104 | Linearization: get answers what the map held when it loaded the bucket; insert publishes only an absent key, or returns the value held; a compare-exchange fails only if another insert into the bucket won; a call ends exactly with its return |
| `LockFreeHashMap.CasSawEverything` | crates/core/lock_free.rs:54-81 | The compare-exchange succeeds exactly when the walk saw the whole bucket, and then the key is absent: no ABA, although freed addresses may be reused |
| `LockFreeHashMap.ContentsGrow` | crates/core/lock_free.rs:46-85 | No step removes a key or replaces a value |
| `LockFreeHashMap.NextKeepsInv` | crates/core/lock_free.rs:46-104 | Every atomic step of every thread keeps the invariant and dereferences only live nodes |
| `LockFreeHashMap.NeverFaults` | crates/core/lock_free.rs:46-104 | No run from a good state dereferences a dead node |
| `LockFreeHashMap.LockFreeHashMap.constructor` | crates/core/lock_free.rs:31-42 | A new map of positive capacity is empty |
| `LockFreeHashMap.LockFreeHashMap.Find` | crates/core/lock_free.rs:58-69 | The chain walk finds exactly the map's value for the key |
| `LockFreeHashMap.LockFreeHashMap.Insert` | crates/core/lock_free.rs:46-85 | Returns the value the map held, if any; the contents change only if there was none, and then by exactly this key and value |
| `LockFreeHashMap.LockFreeHashMap.Get` | crates/core/lock_free.rs:91-104 | Returns the value the map holds for the key, or none |
| `LockFreeHashMap.LockFreeHashMap.Len` | crates/core/lock_free.rs:114-116 | With no call in flight, the number of keys |
| `Tiers.Tier.SchedulerWeight` | crates/executionhandler/src/multi_tenant.rs:124-132 | Every tier has a positive weight |
| `Tiers.HigherTiersGetMore` | crates/executionhandler/src/multi_tenant.rs:91-132 | Each tier allows ten times the orders of the one below, from 10 a minute; shares and exchanges grow with the tier, by the documented ratios |
| `FairScheduler.NoStarvation` | crates/executionhandler/src/multi_tenant.rs:392-441 | Whatever calls came before, a tenant listed in each of the next 2W + 1 calls is chosen by one of them, W being the other registered tenants' total weight, however the lists change |
| `FairScheduler.AfterKeepsBounded` | crates/executionhandler/src/multi_tenant.rs:392-441 | No sequence of selections lifts a credit above its weight or changes a weight |
| `FairScheduler.PickedOrUnlisted` | crates/executionhandler/src/multi_tenant.rs:392-441 | From any credits, within Rank calls a tenant is chosen or some call does not list it |
| `FairScheduler.PickedWithinRank` | crates/executionhandler/src/multi_tenant.rs:392-441 | From any credits at all, a tenant listed in every call is passed over at most Rank times |
| `FairScheduler.SelectLowersRank` | crates/executionhandler/src/multi_tenant.rs:392-433 | A call that lists a tenant chooses it or strictly lowers its rank: the others' credit, plus their weight if it has none itself |
| `FairScheduler.PassingLowersRank` | crates/executionhandler/src/multi_tenant.rs:392-433 | Calls that list a tenant and pass it over cost it one of its rank each |
| `FairScheduler.BoundIsTight` | crates/executionhandler/src/multi_tenant.rs:392-441 | For every W, a reachable state in which the next 2W calls all list a tenant and pass it over |
| `FairScheduler.ExactShares` | crates/executionhandler/src/multi_tenant.rs:372-441 | From full credit, after any number of whole rounds, the next block of total-weight many calls picks each listed tenant exactly its weight many times, the list order free to change at every call |
| `FairScheduler.EveryBlock` | crates/executionhandler/src/multi_tenant.rs:392-441 | For a fixed list from full credit, every such block, wherever it starts, picks each tenant exactly its weight many times |
| `FairScheduler.Round` | crates/executionhandler/src/multi_tenant.rs:392-441 | One round from full or drained credit gives everybody their weight and drains them again |
| `FairScheduler.PicksAreCreditSpent` | crates/executionhandler/src/multi_tenant.rs:397-429 | While credit lasts, the picks of a tenant are exactly the credit it lost |
| `FairScheduler.BestIsMaximum` | crates/executionhandler/src/multi_tenant.rs:397-409 | The scan's choice has the greatest positive credit listed; no choice means no listed tenant has any |
| `FairScheduler.BestIsFirst` | crates/executionhandler/src/multi_tenant.rs:397-409 | Ties go to the tenant listed first |
| `FairScheduler.FairScheduler.RegisterTenant` | crates/executionhandler/src/multi_tenant.rs:372-376 | Weight and full credit for the tier; every registered tenant keeps having both, credit at most weight |
| `FairScheduler.FairScheduler.UnregisterTenant` | crates/executionhandler/src/multi_tenant.rs:379-382 | Weight and credit go together; the bound of credit by weight is kept |
| `FairScheduler.FairScheduler.UpdateTenantTier` | crates/executionhandler/src/multi_tenant.rs:385-388 | The weight changes, the credit already granted stays |
| `FairScheduler.FairScheduler.Scan` | crates/executionhandler/src/multi_tenant.rs:397-409 | The loop computes the first maximum of positive credit |
| `FairScheduler.FairScheduler.ReplenishCredits` | crates/executionhandler/src/multi_tenant.rs:435-441 | The loop over all tenants sets every registered credit to its weight and touches nothing else |
| `FairScheduler.FairScheduler.SelectNext` | crates/executionhandler/src/multi_tenant.rs:392-433 | The two-pass code is the selection function that the fairness lemmas are about, and keeps credits bounded by weights |
| `RateLimiter.TenantRateLimiter.CheckAndRecord` | crates/executionhandler/src/multi_tenant.rs:207-228 | The limiter object decides and trims as the specification function of its deque, its limit and the time |
| `RateLimiter.Decide` | crates/executionhandler/src/multi_tenant.rs:207-228 | The trimming loop and the verdict are that specification function |
| `RateLimiter.CheckRefinesNaive` | crates/executionhandler/src/multi_tenant.rs:207-228 | One call: accepted exactly when fewer than limit accepted timestamps lie in the closed window ending now, and the trimmed deque stays sufficient to tell |
| `RateLimiter.LimiterIsNaive` | crates/executionhandler/src/multi_tenant.rs:207-228 | Over any run with a non-decreasing clock, every verdict is the naive window count over all accepted orders |
| `RateLimiter.NoWindowOverLimit` | crates/executionhandler/src/multi_tenant.rs:207-228 | No closed interval of 60000 ms, wherever it starts, holds more than limit accepted orders |
| `RateLimiter.RunInv` | crates/executionhandler/src/multi_tenant.rs:207-228 | The deque is always the live suffix of the accepted timestamps, and any limit + 1 of these span more than a window |
| `ExecutionHandler.ExecutionHandler.constructor` | crates/executionhandler/src/multi_tenant.rs:490-500 | Starts with no tenants, no orders and balanced books |
| `ExecutionHandler.ExecutionHandler.ProcessOrders` | crates/executionhandler/src/multi_tenant.rs:611-666 | Exactly min(batch, pending) orders leave, each tenant's in FIFO order from the front, through its own tenant's connector for that exchange built from a credential resolved for that tenant; each is counted once, as processed exactly when its exchange executed it, and the results are exactly those, in turn order; the tenant of each turn is the fair scheduler's pick among exactly the tenants with orders left |
| `ExecutionHandler.ExecutionHandler.TakeTurns` | crates/executionhandler/src/multi_tenant.rs:614-663 | The batch loop: turns until the batch is full or nothing waits |
| `ExecutionHandler.NoTenantStarves` | crates/executionhandler/src/multi_tenant.rs:591-666 | No starvation in the handler: over any sequence of batches of any size, submissions, credential loads and refused calls, a tenant with an order waiting is served within the first 2W + 1 turns the batches take together |
| `ExecutionHandler.RunIsFifo` | crates/executionhandler/src/multi_tenant.rs:317-340 | First in, first out from submission to execution: over any sequence of calls, what waited at the start followed by the orders accepted since are the orders taken, in that order, followed by those still waiting |
| `ExecutionHandler.AcceptedIff` | crates/executionhandler/src/multi_tenant.rs:207-228 | On the books after any calls: with a non-decreasing clock a submission is accepted exactly while fewer accepted orders than the tier allows lie in the window |
| `ExecutionHandler.NewTenantServed` | crates/executionhandler/src/multi_tenant.rs:516-528 | A tenant just registered is active and gets its first order queued |
| `ExecutionHandler.MoveLowersRank` | crates/executionhandler/src/multi_tenant.rs:591-666 | A call that does not serve a waiting tenant leaves it waiting and costs one of its rank per turn taken |
| `ExecutionHandler.WaitingTenantServed` | crates/executionhandler/src/multi_tenant.rs:611-666 | The corollary for one batch of more than 2W turns |
| `ExecutionHandler.TenantWindowBounded` | crates/executionhandler/src/multi_tenant.rs:591-608 | On the books of the handler after any calls: with a non-decreasing clock no closed 60000 ms interval holds more orders accepted for a tenant than its tier allows |
| `ExecutionHandler.SubmissionLimited` | crates/executionhandler/src/multi_tenant.rs:317-335 | One more submission: the deque and the recorded times of accepted orders stay those of the limiter over all submissions so far |
| `ExecutionHandler.SubmitBalanced` | crates/executionhandler/src/multi_tenant.rs:591-608 | A submission keeps processed + rejected + queued + discarded equal to accepted, credentials isolated and limiters in step |
| `ExecutionHandler.CountBalanced` | crates/executionhandler/src/multi_tenant.rs:644-662 | So does taking and counting an order |
| `ExecutionHandler.LoadBalanced` | crates/executionhandler/src/multi_tenant.rs:533-566 | So does loading credentials |
| `ExecutionHandler.RegisterBalanced` | crates/executionhandler/src/multi_tenant.rs:516-528 | So does registration, orders of a replaced context counting as discarded |
| `ExecutionHandler.UnregisterBalanced` | crates/executionhandler/src/multi_tenant.rs:569-576 | So does removal of a tenant |
| `ExecutionHandler.BatchContinues` | crates/executionhandler/src/multi_tenant.rs:614-663 | One more turn extends a batch: counts, queues, picks and ledger stay those of the turns so far |
| `ExecutionHandler.Connect` | crates/executionhandler/src/multi_tenant.rs:547-558 | The loading loop adds the credentials one by one within the tier's limit |
| `ExecutionHandler.QueueIn` | crates/executionhandler/src/multi_tenant.rs:317-335 | One context: the limiter's loop decides, the order goes to the back of the queue or the refusal is counted, never both |
| `ExecutionHandler.ExecutionHandler.ProcessOne` | crates/executionhandler/src/multi_tenant.rs:615-663 | One turn takes one order whenever any is pending, so the batch is work-conserving; the ledger makes exactly the scheduler's selection step |
| `ExecutionHandler.ExecutionHandler.ExecuteFront` | crates/executionhandler/src/multi_tenant.rs:669-705 | The front order of that tenant and no other leaves its queue; it counts as executed exactly when its connector was found and the exchange executed it |
| `ExecutionHandler.ExecutionHandler.TenantsWithOrders` | crates/executionhandler/src/multi_tenant.rs:615-622 | Lists exactly the tenants with a non-empty queue |
| `ExecutionHandler.ExecutionHandler.SubmitOrder` | crates/executionhandler/src/multi_tenant.rs:591-608 | Queued at the back exactly when the tenant is known, active and under its rate limit; every refusal is counted and changes nothing else, and no other tenant changes |
| `ExecutionHandler.ExecutionHandler.LoadTenantCredentials` | crates/executionhandler/src/multi_tenant.rs:533-566 | Succeeds exactly when a provider answers with enabled credentials for a known tenant; any error loads nothing |
| `ExecutionHandler.ExecutionHandler.RegisterTenant` | crates/executionhandler/src/multi_tenant.rs:516-528 | A new context replaces any old one, whose queued orders are accounted as discarded |
| `ExecutionHandler.ExecutionHandler.UnregisterTenant` | crates/executionhandler/src/multi_tenant.rs:569-576 | The context goes, its queued orders are accounted as discarded |
| `ExecutionHandler.LoadKeepsIsolated` | crates/executionhandler/src/multi_tenant.rs:533-566 | Whatever a provider answers, loading what is resolved from it keeps every tenant's connectors built only from enabled credentials resolved for that tenant |
| `ExecutionHandler.AddAllProvenance` | crates/executionhandler/src/multi_tenant.rs:293-314 | Each connector is filed under its credential's own exchange, comes from the old map or the loaded list, and the tier's exchange limit is kept |
| `ExecutionHandler.AddAllLoads` | crates/executionhandler/src/multi_tenant.rs:547-558 | With room for all, every credential that builds is loaded and counted, the last for an exchange being the one in use |
| `ExecutionHandler.FullLoadsNothing` | crates/executionhandler/src/multi_tenant.rs:298-303 | At the tier's limit nothing is loaded |
| `ExecutionHandler.Resolve` | crates/smartorderrouter/src/credentials.rs:204-215 | An answer is passed on unchanged exactly when every credential in it is enabled |
| `ExecutionHandler.BatchIsolated` | crates/executionhandler/src/multi_tenant.rs:669-705 | Every connector a batch used belongs to the order's own tenant and exchange |
| `ExecutionHandler.BatchStep` | crates/executionhandler/src/multi_tenant.rs:611-666 | One more order taken extends a batch: each starting queue is its logged orders followed by what is left |
| `ExecutionHandler.SelectServes` | crates/executionhandler/src/multi_tenant.rs:392-433 | A non-empty list of registered tenants always yields a choice from the list |
| `Decimal.CompareIsExact` | crates/broker-adapters/src/decimal.rs:257-269 | cmp is the comparison of cross-multiplied exact values, for all decimals |
| `Decimal.CompareExactIsByValue` | crates/broker-adapters/src/decimal.rs:257-269 | That comparison is the order of the denoted rationals |
| `Decimal.CompareStaysInRange` | crates/broker-adapters/src/decimal.rs:162-165 | No intermediate of cmp leaves 128 bits for scales up to 18 |
| `Decimal.Normalize` | crates/broker-adapters/src/decimal.rs:145-155 | The stripping loop computes the normal form |
| `Decimal.NormalizedIsCanonical` | crates/broker-adapters/src/decimal.rs:145-155 | Normalization keeps the value and validity, is canonical and idempotent |
| `Decimal.EqualIffSameNormalForm` | crates/broker-adapters/src/decimal.rs:145-155 | Two values compare equal exactly when their normal forms have identical units and scale |
| `Decimal.RoundToMultipleCorrect` | crates/broker-adapters/src/decimal.rs:187-203 | On every input: which error and when; otherwise the result is a multiple of the step and is the correct rounding if and only if, in mode HalfUp, twice the remainder fits in 128 bits |
| `Decimal.HalfUpCanMiss` | crates/broker-adapters/src/decimal.rs:187-203 | The exception exists: i128::MAX - 1 rounded half-up to a multiple of i128::MAX gives 0 |
| `Decimal.BumpMeaning` | crates/broker-adapters/src/decimal.rs:176-182 | The added unit gives the greatest multiple below, the least above or the nearest with ties up, for negative values too, exactly under that condition |
| `Decimal.HalfUpIsNearest` | crates/broker-adapters/src/decimal.rs:176-182 | The nearest multiple with ties up is one up exactly from half the step on |
| `Decimal.RoundDpCorrect` | crates/broker-adapters/src/decimal.rs:168-184 | Narrowing is the correct rounding in each mode; widening keeps the value exactly when the widened units fit |
| `Decimal.WideningCanWrap` | crates/broker-adapters/src/decimal.rs:172-174 | A failing input: i128::MAX widened to one place gives -1.0 |
| `Decimal.RoundDpIsRoundToUnit` | crates/broker-adapters/src/decimal.rs:168-203 | round_dp(dp) equals round_to_multiple(unit(dp)) in value whenever the latter succeeds |
| `Decimal.RoundDpIsIdempotent` | crates/broker-adapters/src/decimal.rs:168-184 | Rounding again in any mode changes nothing |
| `Decimal.RoundToMultipleIsIdempotent` | crates/broker-adapters/src/decimal.rs:187-203 | Rounding again to the same step in any mode changes nothing |
| `Decimal.CheckedMulCorrect` | crates/broker-adapters/src/decimal.rs:205-221 | None exactly on overflow; the exact product up to 18 places, else its floor there |
| `Decimal.CheckedAddExact` | crates/broker-adapters/src/decimal.rs:223-228 | A returned sum is the exact sum of the values |
| `Decimal.CheckedAddIff` | crates/broker-adapters/src/decimal.rs:223-228 | A sum is returned exactly when 128-bit units at the common scale exist for both terms and for their sum |
| `DecimalText.PrintThenParse` | crates/broker-adapters/src/decimal.rs:271-285 | Parsing the printed form returns the same units and scale for every valid decimal except units = i128::MIN, which overflows |
| `DecimalText.DisplayParts` | crates/broker-adapters/src/decimal.rs:271-285 | The printed form: a minus sign exactly for negative units, a whole part without superfluous zeros, and exactly scale digits after the point |
| `DecimalText.ParseIsPrintable` | crates/broker-adapters/src/decimal.rs:72-126 | Every accepted text yields a valid decimal that is not i128::MIN |
| `DecimalText.ReparseIsStable` | crates/broker-adapters/src/decimal.rs:72-126 | Printing what was parsed and parsing again gives the same decimal |
| `DecimalText.ParseDigits` | crates/broker-adapters/src/decimal.rs:100-104 | The checked digit loop returns the number written, or none exactly when it exceeds 128 bits |
| `DecimalText.AccumulateIsValue` | crates/broker-adapters/src/decimal.rs:99-104 | Checking every step of the loop is checking the final value |
| `DecimalText.ParseExactIff` | crates/broker-adapters/src/decimal.rs:72-126 | Every accepted text is a sign, digits around at most one point and an optional exponent, and the result is exactly the number written if and only if the fraction is shorter than 2^32 digits or all digits are zero |
| `DecimalText.ParseCanMisread` | crates/broker-adapters/src/decimal.rs:106 | A failing input: nought point 2^32 zeros and a one is read as 0.1 |
| `DecimalText.ParseOutcome` | crates/broker-adapters/src/decimal.rs:72-126 | Every well-spelled text with its outcome: accepted if and only if its digits fit in 128 bits and some decimal holds the value, the fraction length cut to 32 bits (zero: if the exponent is within limits); refused as too precise if the digits fit and there are more than 18 places, else as an overflow |
| `DecimalText.InvalidIff` | crates/broker-adapters/src/decimal.rs:72-98 | A text is called invalid if and only if it is no numeral at all |
| `DecimalText.ParseI32Outcome` | crates/broker-adapters/src/decimal.rs:80 | An exponent is accepted exactly when it spells a 32-bit number, and then as that number |
| `Digits.TrimMeaning` | crates/broker-adapters/src/decimal.rs:74 | Trimming removes all white space from both ends and nothing else |
| `DecimalText.ToFixedIsExact` | crates/broker-adapters/src/decimal.rs:231-237 | Text is returned exactly when dp places can hold the value; it has dp places and reads back as the same number |
| `NonceStore.NonceSafety` | crates/broker-adapters/src/nonce.rs:130-184 | Over any interleaving of callers of one path, any clock, any file error and any crash, a crash losing file data not yet synced: returned nonces strictly increase, exceed what the file held at first, and never exceed what is on disk; a corrupt file yields none and is left alone |
| `NonceStore.SyncIsNeeded` | crates/broker-adapters/src/nonce.rs:142-151 | With a nonce out and the file's data not on disk, some crash leaves a file that does not cover it |
| `NonceStore.NextKeepsInv` | crates/broker-adapters/src/nonce.rs:95-184 | Every step of the lock, read, compute, write, rename, return protocol, or a crash between any two, keeps the invariant |
| `NonceStore.NextAfter` | crates/broker-adapters/src/nonce.rs:52-58 | Fails exactly when the last nonce is the greatest; otherwise the least nonce that is above the last, not below the candidate and at least 1 |
| `NonceStore.UndisturbedAdvance` | crates/broker-adapters/src/nonce.rs:154-160 | A call on its own and without faults hands out the least nonce the clock and the file permit, and leaves it synced on disk |
| `NonceStore.UndisturbedRefusal` | crates/broker-adapters/src/nonce.rs:154-160 | With a corrupt or exhausted file it hands out nothing and changes nothing |
| `NonceStore.ReadOutcome` | crates/broker-adapters/src/nonce.rs:130-140 | No file is no nonce yet; a file is read exactly when it spells a 64-bit number, and is corrupt otherwise |
| `NonceStore.CandidateIsClock` | crates/broker-adapters/src/nonce.rs:43-48 | The candidate is the greatest 64-bit number not past the clock |
| `NonceStore.InMemoryNonceStore.Advance` | crates/broker-adapters/src/nonce.rs:82-87 | Returns the least permitted nonce above the stored one and stores it, or fails, exactly when exhausted, and keeps it |
| `NonceStore.ReadBack` | crates/broker-adapters/src/nonce.rs:130-151 | Reading back what was written gives the same nonce |
| `CircuitBreaker.ClosedCounts` | crates/executionhandler/src/circuit_breaker_v2.rs:111-173 | In every run, while Closed the failure count is the number of failures since the last success, reset or close, and is below the threshold |
| `CircuitBreaker.HalfOpenCounts` | crates/executionhandler/src/circuit_breaker_v2.rs:111-173 | HalfOpen was entered from Open by a request; since then no failure, as many successes as counted, below the threshold, and as many requests as counted |
| `CircuitBreaker.Transitions` | crates/executionhandler/src/circuit_breaker_v2.rs:111-173 | The state after every event in every run: Closed opens exactly on the failure that completes the threshold, Open is left exactly by reset or by a request after the recovery time, HalfOpen reopens exactly on a failure and closes exactly on reset or the last required success |
| `CircuitBreaker.AdmissionLaw` | crates/executionhandler/src/circuit_breaker_v2.rs:111-119 | Who is admitted after any history: everybody while Closed; while Open exactly those at least the recovery time after the latest failure; while HalfOpen exactly those whose place since it was entered is under the percentage |
| `CircuitBreaker.OpenRefuses` | crates/executionhandler/src/circuit_breaker_v2.rs:255-278 | From the opening failure until the recovery time, without a reset, the breaker stays open and refuses every request |
| `CircuitBreaker.ElapsedMeaning` | crates/executionhandler/src/circuit_breaker_v2.rs:260 | A timeout has passed exactly when the clock has got that far past the failure |
| `CircuitBreaker.StreakCounts` | crates/executionhandler/src/circuit_breaker_v2.rs:123-144 | The success streak counts the successes recorded while closed since the last failure, in 32 bits |
| `CircuitBreaker.FailureTimeKnown` | crates/executionhandler/src/circuit_breaker_v2.rs:148-173 | Away from Closed the recorded time is that of the latest failure |
| `CircuitBreaker.TimeoutHonouredIff` | crates/executionhandler/src/circuit_breaker_v2.rs:255-278 | The configured timeout is honoured in every run if and only if it fits in 64 bits of nanoseconds |
| `CircuitBreaker.CallLowersRank` | crates/executionhandler/src/circuit_breaker_v2.rs:280-287 | A half-open call whose service succeeds closes the breaker or strictly lowers the rank |
| `CircuitBreaker.HalfOpenCloses` | crates/executionhandler/src/circuit_breaker_v2.rs:111-144 | With percentage at least 1 and admitted calls succeeding, HalfOpen closes within the rank |
| `CircuitBreaker.OpenCloses` | crates/executionhandler/src/circuit_breaker_v2.rs:111-144 | From Open, once the recovery time is over, 100 calls per required success suffice to close |
| `CircuitBreaker.AtomicCircuitBreaker.CanExecute` | crates/executionhandler/src/circuit_breaker_v2.rs:111-119 | Admission and new state are the machine's step |
| `CircuitBreaker.AtomicCircuitBreaker.TryHalfOpen` | crates/executionhandler/src/circuit_breaker_v2.rs:255-278 | Moves to HalfOpen exactly after the recovery time |
| `CircuitBreaker.AtomicCircuitBreaker.AllowHalfOpen` | crates/executionhandler/src/circuit_breaker_v2.rs:280-287 | Admits the configured share of requests by the running counter |
| `CircuitBreaker.AtomicCircuitBreaker.RecordSuccess` | crates/executionhandler/src/circuit_breaker_v2.rs:123-144 | The machine's success step |
| `CircuitBreaker.AtomicCircuitBreaker.RecordFailure` | crates/executionhandler/src/circuit_breaker_v2.rs:148-173 | The machine's failure step |
| `CircuitBreaker.AtomicCircuitBreaker.Reset` | crates/executionhandler/src/circuit_breaker_v2.rs:242-246 | The machine's reset step |
| `DeadLetterQueue.RetryBound` | crates/executionhandler/src/dead_letter_queue.rs:445-501 | In every run: pending entries have retries left, no entry is retried more than max(1, max_retries) times, evicted or not, and non-retryable ones never |
| `DeadLetterQueue.ArrivalStatus` | crates/executionhandler/src/dead_letter_queue.rs:200-246 | A new entry is pending exactly unless funds were short, the order was invalid or the failure is unknown; the newest entries keep their places |
| `DeadLetterQueue.FinishOutcome` | crates/executionhandler/src/dead_letter_queue.rs:284-310 | A successful retry resolves the entry; a failed one puts it back exactly while fewer than max_retries were made, else hands it to manual review; nothing else changes |
| `DeadLetterQueue.AdvanceOutcome` | crates/executionhandler/src/dead_letter_queue.rs:465-479 | The next entry of the snapshot is tried, stamped and counted exactly if it was never tried or its delay is over |
| `DeadLetterQueue.SnapshotOutcome` | crates/executionhandler/src/dead_letter_queue.rs:249-255 | A snapshot is exactly the pending entries, in queue order |
| `DeadLetterQueue.WaiveOutcome` | crates/executionhandler/src/dead_letter_queue.rs:313-321 | A dismissal changes the status of one entry and nothing else |
| `DeadLetterQueue.CleanUpOutcome` | crates/executionhandler/src/dead_letter_queue.rs:381-406 | A clean-up removes exactly the finished entries it is told to |
| `DeadLetterQueue.NextKeepsInv` | crates/executionhandler/src/dead_letter_queue.rs:176-310 | Arrivals, evictions, waivers, clean-ups, snapshots and worker steps, interleaved at will, keep the invariant |
| `DeadLetterQueue.MeasureDecreases` | crates/executionhandler/src/dead_letter_queue.rs:457-494 | The remaining retries are never negative, fall by one with every retry and rise only with an arrival |
| `DeadLetterQueue.AttemptsBounded` | crates/executionhandler/src/dead_letter_queue.rs:457-494 | Over any run, retries made plus retries left are exactly the retries granted |
| `DeadLetterQueue.DeadLetterQueue.AddFailedOrder` | crates/executionhandler/src/dead_letter_queue.rs:200-246 | The new entry is last, the oldest entries make room, the status follows the category |
| `DeadLetterQueue.DeadLetterQueue.GetPending` | crates/executionhandler/src/dead_letter_queue.rs:249-255 | The pending entries in queue order |
| `DeadLetterQueue.DeadLetterQueue.MarkRetrying` | crates/executionhandler/src/dead_letter_queue.rs:273-281 | Only the first entry of that id changes: retrying, one more retry |
| `DeadLetterQueue.DeadLetterQueue.MarkResolved` | crates/executionhandler/src/dead_letter_queue.rs:284-291 | Only the first entry of that id changes: resolved |
| `DeadLetterQueue.DeadLetterQueue.MarkRetryFailed` | crates/executionhandler/src/dead_letter_queue.rs:294-310 | Only the first entry of that id changes: pending again, or manual review once the retries are used up |
| `DeadLetterQueue.DeadLetterQueue.Dismiss` | crates/executionhandler/src/dead_letter_queue.rs:313-321 | Only the first entry of that id changes: dismissed |
| `DeadLetters.FindAndUpdate` | crates/executionhandler/src/dead_letter_queue.rs:273-281 | The search loop changes the first entry of that id in place and nothing else |
| `BoundedDlq.QueueConserves` | crates/executionhandler/src/bounded_dlq.rs:137-219 | Over any mix of enqueues, recoveries and status changes, for every policy but Block: memory stays within bounds, and enqueue calls are exactly the entries in memory, in overflow and dropped, identity by identity |
| `BoundedDlq.EnqueueConserves` | crates/executionhandler/src/bounded_dlq.rs:137-219 | One enqueue keeps the bound and loses nothing silently; a refused entry is dropped and counted, an accepted one is last |
| `BoundedDlq.RecoverConserves` | crates/executionhandler/src/bounded_dlq.rs:395-413 | Recovery moves entries back without losing, duplicating or dropping any |
| `BoundedDlq.CountsBalance` | crates/executionhandler/src/bounded_dlq.rs:137-219 | Conservation of identities gives the equation between the counters |
| `BoundedDlq.VictimIsOldestLowest` | crates/executionhandler/src/bounded_dlq.rs:32-46 | The priority victim has the least priority stored and is the oldest of those |
| `BoundedDlq.PriorityOrder` | crates/executionhandler/src/bounded_dlq.rs:32-46 | The order of priorities by status and by whether an entry was tried, with the two exceptions stated exactly |
| `BoundedDlq.AdmitByPolicy` | crates/executionhandler/src/bounded_dlq.rs:153-218 | What each policy drops: the first entry, the new one, the oldest of least priority, or the first into overflow; everything else keeps its order and the new entry is last |
| `BoundedDlq.RecoverOrder` | crates/executionhandler/src/bounded_dlq.rs:402-406 | Recovery puts the newest overflow entries behind those in memory, the newest first |
| `BoundedDlq.RecoverableIsGreatest` | crates/executionhandler/src/bounded_dlq.rs:399-400 | As many are moved as are wanted, present and have room, and no fewer |
| `BoundedDlq.EvictionIsFifo` | crates/executionhandler/src/bounded_dlq.rs:137-219 | Under PersistAndEvict, overflow followed by memory is the exact arrival order through any mix of enqueues, recoveries and status changes of a queue that starts empty |
| `BoundedDlq.RecoveryMovesNothing` | crates/executionhandler/src/bounded_dlq.rs:395-413 | In every run without a load from disk, every recovery finds memory full or overflow empty and moves nothing |
| `BoundedDlq.EvictionKeepsOrder` | crates/executionhandler/src/bounded_dlq.rs:137-219 | One enqueue under PersistAndEvict keeps that order |
| `BoundedDlq.BoundedDeadLetterQueue.Enqueue` | crates/executionhandler/src/bounded_dlq.rs:137-219 | At capacity exactly the entry the policy names is dropped or moved to overflow, the rest keeps its order, and the counters balance |
| `BoundedDlq.BoundedDeadLetterQueue.Evict` | crates/executionhandler/src/bounded_dlq.rs:153-208 | Each policy makes room as specified and counts what it drops |
| `BoundedDlq.MoveBack` | crates/executionhandler/src/bounded_dlq.rs:402-406 | The loop moves the newest overflow entries back one by one |
| `BoundedDlq.BoundedDeadLetterQueue.RecoverFromOverflow` | crates/executionhandler/src/bounded_dlq.rs:395-413 | Moves back as many of the newest overflow entries as are wanted, present and fit |
| `LatencyStats.VarianceNeverUnderflows` | crates/executionhandler/src/latency_optimizer.rs:301-307 | For every history whose sum of squares fits in 64 bits, the wrapping expression is the exact, non-negative integer variance |
| `LatencyStats.VarianceCorrectIff` | crates/executionhandler/src/latency_optimizer.rs:525-527 | As long as the sum and the mean square fit in 64 bits, the wrapping variance is right if and only if the sum of squares fits too |
| `LatencyStats.SmallSamplesFit` | crates/executionhandler/src/latency_optimizer.rs:231-236 | That covers all histories of fewer than 2^32 samples below 2^32 ns |
| `LatencyStats.WrapsCanCancel` | crates/executionhandler/src/latency_optimizer.rs:302-306 | Beyond it two wraps can cancel: two samples of 2^32 ns overflow the sum of squares and yet give the right answer |
| `LatencyStats.VarianceNonNegative` | crates/executionhandler/src/latency_optimizer.rs:302-306 | Over unbounded integers the floored variance of any history is not negative |
| `LatencyStats.CauchySchwarz` | crates/executionhandler/src/latency_optimizer.rs:231-236 | The square of the sum is at most the count times the sum of squares, over the whole history |
| `LatencyStats.FloorsOrdered` | crates/executionhandler/src/latency_optimizer.rs:301-307 | Both floor divisions keep that order |
| `LatencyStats.ErrorStreak` | crates/executionhandler/src/latency_optimizer.rs:265-278 | With the default threshold, 73 recorded errors in a row are handled and the 74th makes the variance wrong |
| `LatencyStats.LatencySamples.constructor` | crates/executionhandler/src/latency_optimizer.rs:114-128 | The empty history |
| `LatencyStats.LatencySamples.RecordLatency` | crates/executionhandler/src/latency_optimizer.rs:224-262 | The three accumulators are the history's exact count, sum and sum of squares modulo 2^64; extremes and both sample windows are those of the history |
| `LatencyStats.SuffixMeaning` | crates/executionhandler/src/latency_optimizer.rs:247-256 | A sample window is the latest samples in order |
| `LatencyStats.LatencySamples.Variance` | crates/executionhandler/src/latency_optimizer.rs:302-306 | The variance computed is the exact one whenever the sum of squares fits |
| `FillModel.EstimatorSafety` | crates/executionhandler/src/fill_probability.rs:225-371 | After any fills, rejections and volatility updates: full and partial probabilities are non-negative and sum to at most 1, and a larger order on the same sorted book never gets a higher full-fill probability, a lower slippage or a shorter time to fill |
| `FillModel.LargerOrderFillsNoBetter` | crates/executionhandler/src/fill_probability.rs:394-538 | Full-fill probability is antitone in the order size, across changes of regime |
| `FillModel.LargerOrderSlipsNoLess` | crates/executionhandler/src/fill_probability.rs:540-633 | Expected slippage and fill time are monotone in the order size on a sorted book |
| `FillModel.EstimateSound` | crates/executionhandler/src/fill_probability.rs:516-538 | 0 <= full <= 0.99, 0 <= partial, full + partial <= 1, the expected fill lies between full and 1, and the confidence in [0, 1] |
| `FillModel.ScoresInUnit` | crates/executionhandler/src/fill_probability.rs:394-484 | All six scores lie in [0, 1] |
| `FillModel.ConfidenceInUnit` | crates/executionhandler/src/fill_probability.rs:635-659 | The confidence lies in [0, 1], with no minimum of samples or no window too |
| `FillModel.RegimeWorsens` | crates/executionhandler/src/fill_probability.rs:486-514 | More size leaves the regime alone or makes it Stressed |
| `FillModel.LiquidityFalls` | crates/executionhandler/src/fill_probability.rs:394-411 | The piecewise liquidity score is antitone, across its pieces |
| `FillModel.SizeFalls` | crates/executionhandler/src/fill_probability.rs:424-447 | The size score is antitone, across its pieces and the square root |
| `FillModel.LiquidityAnchors` | crates/executionhandler/src/fill_probability.rs:394-411 | Full marks up to a tenth of the depth, 0.8 at half of it, 0.4 at all of it |
| `FillModel.LiquidityStraight` | crates/executionhandler/src/fill_probability.rs:402-407 | Straight lines between those |
| `FillModel.LiquidityTail` | crates/executionhandler/src/fill_probability.rs:408-410 | Inversely proportional from there on |
| `FillModel.SizeAnchors` | crates/executionhandler/src/fill_probability.rs:434-437 | Full marks up to the typical size and a straight line to 0.6 at five times that |
| `FillModel.SizeTail` | crates/executionhandler/src/fill_probability.rs:438-440 | Inversely to the root of the size from there on |
| `FillModel.SizeBasis` | crates/executionhandler/src/fill_probability.rs:424-447 | 0.8 until there are enough observations of the symbol, then against its typical size |
| `FillModel.TypicalIsAverage` | crates/executionhandler/src/fill_probability.rs:428-432 | The typical size is the average of the observations, at least 0.001 |
| `FillModel.SpreadShape` | crates/executionhandler/src/fill_probability.rs:413-422 | Full marks when tight, a straight line to 0.6 when wide, then inversely proportional |
| `FillModel.VolatilityShape` | crates/executionhandler/src/fill_probability.rs:464-473 | Full marks up to half the threshold, a straight line to 0.7 there, then five times as steep down to 0.3 |
| `FillModel.ImbalanceFavours` | crates/executionhandler/src/fill_probability.rs:475-484 | Asks favour a buyer and bids a seller: above 0.75 exactly when the favourable side has more volume |
| `FillModel.HistoricalMeaning` | crates/executionhandler/src/fill_probability.rs:449-462 | Seven tenths of the way from the exchange's fill rate to the symbol's, unknown ones counting as 0.85 |
| `FillModel.BaseWeights` | crates/executionhandler/src/fill_probability.rs:518-523 | The base is linear, with these weights |
| `FillModel.BaseAverages` | crates/executionhandler/src/fill_probability.rs:518-523 | Equal scores give themselves: the weights sum to 1 |
| `FillModel.RegimesRanked` | crates/executionhandler/src/fill_probability.rs:526-535 | From Liquid to Stressed a full fill gets less likely and a partial one takes more of the rest |
| `FillModel.RegimeAnchors` | crates/executionhandler/src/fill_probability.rs:526-571 | What a base of one half and a wait of 100 ms become in each regime |
| `FillModel.StressedIff` | crates/executionhandler/src/fill_probability.rs:493-496 | Stressed exactly over 50 basis points or over twice the depth |
| `FillModel.RegimeIff` | crates/executionhandler/src/fill_probability.rs:498-513 | Each other regime exactly when its condition holds and no earlier one does |
| `FillModel.NoBidIsStressed` | crates/executionhandler/src/fill_probability.rs:68-74 | Without a bid the market is stressed |
| `FillModel.NoLimitSeesAll` | crates/executionhandler/src/fill_probability.rs:237-241 | With no limit an order sees its whole side of the book |
| `FillModel.PriceSlipMeaning` | crates/executionhandler/src/fill_probability.rs:613-620 | Slippage takes the reference price to the average paid or earned |
| `FillModel.BookSlipMeaning` | crates/executionhandler/src/fill_probability.rs:593-629 | The book's slippage is that of its walk, and 0 where there is nothing to walk |
| `FillModel.SizeSlipShape` | crates/executionhandler/src/fill_probability.rs:584-591 | Ten basis points for the whole depth, and quadratic |
| `FillModel.SlippageIsWorst` | crates/executionhandler/src/fill_probability.rs:631-632 | The largest of the three estimates |
| `FillModel.TimesRanked` | crates/executionhandler/src/fill_probability.rs:554-568 | Fill time grows with the regime and with the share of the depth, up to twice it |
| `FillModel.ExpectedIsMidway` | crates/executionhandler/src/fill_probability.rs:287 | A partial fill counts half |
| `FillModel.NormalAnchors` | crates/executionhandler/src/fill_probability.rs:534-535 | In a normal market the chance is the base itself, capped at 0.99, and a partial fill takes three fifths of the rest |
| `FillModel.ConfidenceMeaning` | crates/executionhandler/src/fill_probability.rs:635-659 | Seven tenths of the way from freshness to the share of samples |
| `FillModel.SampleAnchors` | crates/executionhandler/src/fill_probability.rs:646-647 | The share of samples is full exactly from twice the minimum on |
| `FillModel.StalenessAnchors` | crates/executionhandler/src/fill_probability.rs:650-656 | Data is fresh exactly within its first second and stale exactly from the window on |
| `FillModel.BookSlipRises` | crates/executionhandler/src/fill_probability.rs:593-629 | Book slippage is non-negative and monotone on either side |
| `FillModel.RunKeepsRange` | crates/executionhandler/src/fill_probability.rs:299-371 | With reported fills in [0, 1] and a decay in [0, 1], learned rates stay in [0, 1] for ever |
| `FillModel.LearnKeepsRange` | crates/executionhandler/src/fill_probability.rs:299-371 | One update keeps them there |
| `FillModel.EstimateSlippage` | crates/executionhandler/src/fill_probability.rs:573-633 | The code with its book loop computes the specified slippage |
| `FillModel.UpdateSymbol` | crates/executionhandler/src/fill_probability.rs:329-347 | Pushing, pruning by age, draining over the bound and decaying give the specified statistics |
| `FillModel.RunKeepsPruned` | crates/executionhandler/src/fill_probability.rs:333-341 | After any run each symbol holds at most the configured number of observations, all newer than the window at its last update |
| `FillModel.UpdateKeepsPruned` | crates/executionhandler/src/fill_probability.rs:329-341 | One update prunes so, and with room and a positive window keeps the new observation last |
| `FillModel.FilledOutcome` | crates/executionhandler/src/fill_probability.rs:344-355 | A recorded fill moves the averages towards what was seen, leaving the share decay of each distance, and touches no other symbol or exchange |
| `FillModel.RejectedOutcome` | crates/executionhandler/src/fill_probability.rs:359-371 | A rejection moves only the exchange's reject rate, towards 1 |
| `FillModel.VolatilityOutcome` | crates/executionhandler/src/fill_probability.rs:374-376 | A new volatility replaces the old one and nothing else |
| `FillModel.NotAdaptive` | crates/executionhandler/src/fill_probability.rs:310-312 | With learning off a fill or a rejection changes nothing |
| `FillModel.ToU64Meaning` | crates/executionhandler/src/fill_probability.rs:570 | The fill time drops the fraction and saturates at both ends of 64 bits |
| `FillModel.DecayedMeaning` | crates/executionhandler/src/fill_probability.rs:344-347 | An update leaves the share decay of the distance to the new value |
| `FillModel.DefaultsAgree` | crates/executionhandler/src/fill_probability.rs:182-191 | An unknown symbol is estimated as the statistics it starts from say |
| `FillModel.UntaughtVolatility` | crates/executionhandler/src/fill_probability.rs:220 | A new model starts at the highest volatility with full marks under a threshold of two percent |
| `FillModel.FillProbabilityModel.constructor` | crates/executionhandler/src/fill_probability.rs:215-222 | Nothing learned, volatility 0.01 |
| `FillModel.FillProbabilityModel.EstimateFillProbability` | crates/executionhandler/src/fill_probability.rs:225-294 | The method computes the specified estimate, and it is sound when rates are in range |
| `FillModel.FillProbabilityModel.RecordFill` | crates/executionhandler/src/fill_probability.rs:299-356 | The stored statistics follow the learning function, or stay when learning is off |
| `FillModel.FillProbabilityModel.RecordRejection` | crates/executionhandler/src/fill_probability.rs:359-371 | The rejection rate follows the learning function |
| `FillModel.FillProbabilityModel.UpdateVolatility` | crates/executionhandler/src/fill_probability.rs:374-376 | Only the volatility changes |
| `OrderBook.WalkBook` | crates/executionhandler/src/fill_probability.rs:599-611 | The loop with its early exit computes the walk |
| `OrderBook.WalkFills` | crates/executionhandler/src/fill_probability.rs:603-611 | The walk fills the smaller of the order and the whole side |
| `OrderBook.WalkIsCheapest` | crates/executionhandler/src/fill_probability.rs:603-611 | No other way of filling the same quantity from a sorted side costs less |
| `OrderBook.MarginalCost` | crates/executionhandler/src/fill_probability.rs:603-611 | Every extra unit costs at least any lower bound of the prices |
| `OrderBook.AverageCostRises` | crates/executionhandler/src/fill_probability.rs:603-614 | A larger purchase pays no better an average price |
| `OrderBook.AverageProceedsFall` | crates/executionhandler/src/fill_probability.rs:603-619 | A larger sale earns no better an average price |
| `OrderBook.ImbalanceBounds` | crates/executionhandler/src/fill_probability.rs:98-108 | The imbalance lies in [-1, 1] |
| `OrderBook.ImbalanceSign` | crates/executionhandler/src/fill_probability.rs:98-108 | The imbalance has the sign of the difference in volume and is extreme exactly when one side is empty |
| `OrderBook.SpreadMeaning` | crates/executionhandler/src/fill_probability.rs:68-74 | The spread in basis points takes the bid to the ask |
| `OrderBook.DepthCounts` | crates/executionhandler/src/fill_probability.rs:82-95 | Depth counts every level within the limit in full and no other |
| `OrderBook.DepthAdds` | crates/executionhandler/src/fill_probability.rs:82-95 | Depth adds up over the levels |
| `OrderBook.DepthBuys` | crates/executionhandler/src/fill_probability.rs:90-95 | A purchase within the depth at its limit is filled in full, at no more than the limit on average |
| `OrderBook.DepthSells` | crates/executionhandler/src/fill_probability.rs:82-87 | A sale within the depth at its limit is filled in full, at no less than the limit on average |

## Left out

- Weak memory orderings: atomic operations are sequentially consistent, and one call of the breaker or of the
  scheduler is one step. Floating-point rounding: the estimator is over the reals.
- Clocks, allocator choices, file faults, connector outcomes, spurious failures and the square root are
  parameters. The clock is read once in a call. A rename is assumed atomic and durable,
  the data of a file not yet synced is not; a temporary file left by a crash is ignored, as in the code.
- RingChannel.ZeroCopyChannel.Len: the object form has one caller; a `len` racing both threads is `RacingLen`.
- RingChannel.ZeroCopyChannel.constructor: a channel of capacity 0 is not covered, since its first `send` divides by zero.
- LockFreeHashMap.LockFreeHashMap.constructor: a map of capacity 0 is not covered, since its first call divides by zero.
- LockFreeHashMap.LockFreeHashMap.Insert: the object form has one caller, so the retry of the compare-exchange is only in the
  machine above it; memory is a map from addresses to nodes, and dropping the map is left out.
- RateLimiter.LimiterIsNaive: assumes a non-decreasing clock and a fixed tier, as the trimmed deque does.
- FairScheduler.NoStarvation: weights are fixed during the calls; a tier change leaves old credits in place.
- LatencyStats.VarianceCorrectIff: says nothing where the sum or the mean square itself overflows 64 bits; there the wraps can
  cancel, as `WrapsCanCancel` shows.
- FillModel.EstimatorSafety: assumes a wide-spread threshold that is not negative, without which the spread score can divide
  by zero.
- FillModel.FillProbabilityModel.EstimateFillProbability: needs the same threshold.
- BoundedDlq.QueueConserves: the Block policy, which does not recheck the capacity after waiting, the `peak_entries` figure and
  loading overflow from disk are not modelled.
- BoundedDlq.BoundedDeadLetterQueue.Enqueue: the Block policy at capacity waits and has no step here.
- DeadLetterQueue.RetryBound: one worker loop is the only caller of the `mark_*` methods. Stopping and starting the worker while
  a retry is awaited leaves two loops in the source, which can retry one snapshot entry past the bound. Delays between retries
  are a free choice of when a step is due. Persistence is not modelled.
- DeadLetterQueue.DeadLetterQueue.AddFailedOrder: a maximum of 0 entries is not covered; the source's eviction loop does not end there.
- CircuitBreaker.Transitions: calls are atomic; a success recorded on a stale state read is not covered.
- ExecutionHandler.NoTenantStarves: registrations are fixed over the calls considered.
- ExecutionHandler.ExecutionHandler.ProcessOrders: calls are sequential; changing a tenant's tier through the handler and the shutdown flag
  are not modelled.
- The lock-free stack and the memory pool free nodes right after their compare-exchange; their correctness needs an
  assumption about address reuse that the code does not establish.
- The backpressure controller's permits, and the health ladder of the latency optimizer.
- Validators, permission tables, alert counters and percentiles.
- Network transports, authentication, metrics, secrets, logging and the JavaScript parts.
