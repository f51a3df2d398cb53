# Verified models of Vertex components

This project models six state-keeping components of the Vertex node and proves
what they keep over whole runs. Each component is described twice: as a pure step
machine or specification function, about which the theorems are stated, and as
the class or method that does the work, whose contract ties it to that machine.

| component | files |
|---|---|
| GCRA rate limiter | `Gcra.dfy`, `KeyedLimiter.dfy` |
| outbound self-throttle | `SelfLimiter.dfy`, `DrainLine.dfy`, `DrainSchedule.dfy` |
| chain event engine | `ChainLogs.dfy`, `ChainIndex.dfy`, `EventEngine.dfy` |
| dial tracker | `Backoff.dfy`, `DialGuard.dfy`, `DialBook.dfy`, `DialTracker.dfy` |
| write-through store, mirror, secondary indexes | `Store.dfy`, `Mirror.dfy`, `SecondaryIndex.dfy`, `IndexedMirror.dfy` |
| byte-bounded LRU store | `BoundedLru.dfy` |
| dnsaddr resolver | `Resolver.dfy` |
| shared | `Words.dfy` (fixed-width arithmetic), `Clocks.dfy` (timed calls), `RecencyList.dfy` (LRU order), `Options.dfy`, `Seqs.dfy` (subsequences) |

Verify with `dafny verify dfyconfig.toml`.

## How the components are modelled

- **Clocks.** Every call takes the clock reading it made as an argument, one per
  call. Runs assume that readings never go back, except where a lemma says that
  no order is needed (`Gcra.WindowBound`).
- **Timers.** A timer is its deadline on the same clock; it has fired when the
  clock has reached the deadline. A poll may meet fired timers in any order.
- **Widths.** Fixed-width sums and products saturate or wrap as in the source,
  written out over unbounded integers. Where the source uses the plain operators
  they wrap, as in a release build; a debug build panics there instead.
- **Reader, indexer, network, IndexedDB.** The log provider is an arbitrary
  function of the query number and the range, subject to `Honest`; the indexer is
  an arbitrary function saying which `apply` fails; DNS answers are an arbitrary
  function from names to records; IndexedDB applies a batch atomically or not at
  all.
- **Opaque types.** Keys, peers, ids, addresses, values and encoded bytes are
  types with equality and nothing else.

## Where code and documentation disagree

The model follows the code in each case.

- `Quota` promises at most `max_tokens` in any window. The bucket refills while it
  is being drained, so a full burst plus one token fits in one window. The promise
  holds exactly for single-token and zero-length quotas, and for quotas so long
  that one more token outlasts the clock (`Gcra.WindowPromiseIff`); what always
  holds is `Gcra.WindowBound`.
- That bound needs the clock plus one bucket to stay strictly below `u64::MAX`. At
  or above it the saturating sums admit every charge
  (`Gcra.LimitsExactlyInRange`).
- `set_quota` is documented to make parked items wait longer after a shrink, rather
  than admitting them early. An item whose cost exceeds the new capacity is dropped
  (`SelfLimiter.ShrinkDropsAParkedHead`). For a resize that makes no token cheaper
  and the bucket no larger, the promise holds exactly when every parked cost fits
  the new capacity (`DrainSchedule.ShrinkOnlyDelaysIff`). A lower rate over a longer
  interval is not such a shrink: it hands out credit
  (`KeyedLimiter.ResizeAddsNoCreditIff`).
- The jitter is documented as within 12.5%. For very long backoffs the signed
  arithmetic overflows; `Backoff.JitterWithinAnEighthIff` gives the exact limit,
  and `Backoff.NeverShrinksIff` the exact limit up to which more failures never
  shorten the backoff.
- The backoff formula in the documentation has no limit on the exponent; the code
  stops doubling after ten failures. `Backoff.RawIsDocumentedIff` says exactly when
  the two agree, `Backoff.TwelfthFailureStaysPut` shows a case where they do not.
- `BoundedLruStore` is documented to end up empty after an oversized insert.
  Recent entries of size zero survive (`BoundedLru.ZeroSizedEntrySurvives`,
  `BoundedLru.OversizedInsertEmptiesIff`).
- `Indexer::apply` is documented to commit atomically with the cursor. The engine
  commits them separately and relies on replay, as its own module notes say: a
  crash can leave a log applied above the cursor
  (`ChainIndex.CrashLeavesALogAboveTheCursor`). The two stay in step exactly as long
  as no page is abandoned half applied (`ChainIndex.UninterruptedRunsStayInStep`,
  `ChainIndex.AbandonedPageStaysInStepIff`), and are in step again whenever the
  cursor has caught up with the reported heads (`ChainIndex.CaughtUpIsInStep`).
- The resolver's depth bound is not a radius: a name within `max_depth` hops can go
  unfetched (`Resolver.DepthBoundCanHideANearName`). It is one for graphs in which
  no such name also ends a chain of one hop more
  (`Resolver.UnambiguousDepthsResolveToTheRadius`), and it hides nothing at all when
  no chain of distinct names is longer than the bound
  (`Resolver.ShortChainsResolveCompletely`). Neither condition is necessary
  (`Resolver.LongChainCanBeHarmless`).

## Model

| member | source | states |
|---|---|---|
| Gcra.QuotaCellIsOrdered | crates/net/ratelimiter/src/lib.rs:115-127 | for any quota `tau` is the replenish time, cut off at `u64::MAX`, `t <= tau`, and `t` is the largest interval that fits `max_tokens` times into `tau` |
| Gcra.CheckSpendsCredit | crates/net/ratelimiter/src/lib.rs:321-334 | with credit `tau - max(0, tat - now)`, a charge is admitted exactly when credit covers its cost, credit then drops by exactly the cost, and `TooLarge` means cost above capacity |
| Gcra.TooSoonIsTheFirstAdmission | crates/net/ratelimiter/src/lib.rs:67-70 | the wait in `TooSoon(d)` is positive and the same charge is admitted at an instant if and only if it is at or after `now + d` |
| Gcra.TooLargeIsPermanent | crates/net/ratelimiter/src/lib.rs:62-66 | a charge refused as too large is refused as too large in every bucket state and at every instant |
| Gcra.CheckSeesOnlyTheFuture | crates/net/ratelimiter/src/lib.rs:321-334 | two arrival times that agree from `now` on give the same verdict |
| Gcra.BurstIsTheFloor | crates/net/ratelimiter/src/lib.rs:115-127 | a full bucket admits `n` tokens at once exactly when `n` replenish intervals fit into `tau`, which can exceed `max_tokens` |
| Gcra.VirtualSchedulingIsLeakyBucketFrom | crates/net/ratelimiter/src/lib.rs:321-334 | from any related states, virtual scheduling and the continuous-state leaky bucket of ITU-T I.371 Annex A decide every charge of every run alike |
| Gcra.VirtualSchedulingIsLeakyBucket | crates/net/ratelimiter/src/lib.rs:6-11 | a fresh limiter and an empty leaky bucket take the same decisions on every run |
| Gcra.AdmittedCostFits | crates/net/ratelimiter/src/lib.rs:321-334 | the potential behind the window bound: what can still be admitted by instant `b` is at most `b + tau` less the arrival time |
| Gcra.WindowBound | crates/net/ratelimiter/src/lib.rs:152-163 | the cost admitted in any window `[a, b]` is at most `(b - a) + tau`, for any charges in any clock order |
| Gcra.SaturatedBucketAdmitsAll | crates/net/ratelimiter/src/lib.rs:327-333 | once `now + tau` reaches the top of `u64`, every one of any number of one-token charges at that instant is admitted |
| Gcra.LimitsExactlyInRange | crates/net/ratelimiter/src/lib.rs:327-333 | at an instant at most one full bucket gets through in every run if and only if `now + tau` is below the top of `u64` |
| Gcra.TokensAreCost | crates/net/ratelimiter/src/lib.rs:321-334 | tokens admitted in a window times `t` is exactly the cost admitted in it |
| Gcra.BurstPlusOneBreaksTheWindow | crates/net/ratelimiter/src/lib.rs:73-78 | for two or more tokens, of which one more than `max_tokens` costs less than the clock lasts, a run admits more than `max_tokens` in one window |
| Gcra.InRangeCostFits | crates/net/ratelimiter/src/lib.rs:321-334 | what an in-range run gets through in all is less than the clock lasts |
| Gcra.WindowPromiseIff | crates/net/ratelimiter/src/lib.rs:73-78 | for every quota: "at most `max_tokens` in any window" holds for every in-range run if and only if the quota is single-token, zero-length, as long as the clock, or has tokens of which one more than `max_tokens` costs more than the clock lasts |
| Gcra.RateLimiter.TryConsumeN | crates/net/ratelimiter/src/lib.rs:154-163 | charges all `n` tokens or leaves the bucket untouched, with the verdict of the check |
| KeyedLimiter.RunKeepsDebtBounded | crates/net/ratelimiter/src/lib.rs:209-278 | every run of keyed operations, quota changes included, keeps `tat <= now + tau` for each key |
| KeyedLimiter.WaitHintNeverExceedsCost | crates/net/ratelimiter/src/lib.rs:226-240 | after any run, a wait hint for `n` tokens is at most `n` replenish intervals |
| KeyedLimiter.ReapplyingQuotaIsIdentity | crates/net/ratelimiter/src/lib.rs:245-260 | setting an unchanged quota again, at any time, changes nothing |
| KeyedLimiter.ResizeClampsBacklog | crates/net/ratelimiter/src/lib.rs:247-267 | a resize carries the backlog over, cut down to the new capacity, so that the key holds no more credit than the new bucket permits and owes no more than it holds |
| KeyedLimiter.ResizeAddsNoCreditIff | crates/net/ratelimiter/src/lib.rs:247-267 | a resize leaves the key with no more credit than before if and only if the new capacity is no larger than the old one |
| KeyedLimiter.ThereAndBackForgives | crates/net/ratelimiter/src/lib.rs:250-267 | a resize to a smaller bucket and back at once forgives exactly the backlog that the smaller one cannot hold |
| KeyedLimiter.ShrinkAndGrowRefills | crates/net/ratelimiter/src/lib.rs:250-267 | a run in which a drained ten-token bucket, shrunk to one token and grown back at the same instant, grants nine more |
| KeyedLimiter.ChargeSpendsCredit | crates/net/ratelimiter/src/lib.rs:209-240 | a keyed charge is granted exactly when the credit of its key covers it and takes exactly its cost; a refused one takes nothing; `TooLarge` exactly above capacity |
| KeyedLimiter.PeekForetellsTheCharge | crates/net/ratelimiter/src/lib.rs:226-240 | at every instant a peek gets the answer of the charge and changes nothing; a denied charge leaves the bucket as it was |
| KeyedLimiter.SweepKeepsTheOwing | crates/net/ratelimiter/src/lib.rs:305-313 | a sweep keeps exactly the buckets with a backlog, unchanged |
| KeyedLimiter.ShrinkAdmitsNothingEarly | crates/net/ratelimiter/src/lib.rs:247-267 | a resize that makes no token cheaper and the bucket no larger admits no charge at any later instant that would not have been admitted without it |
| KeyedLimiter.KeysAreIndependent | crates/net/ratelimiter/src/lib.rs:176-186 | an operation on one key leaves all others alone; a cleared key starts afresh |
| KeyedLimiter.StepSpendsHeadroom | crates/net/ratelimiter/src/lib.rs:209-313 | every operation pays for what it gets admitted for a key out of that key's remaining headroom |
| KeyedLimiter.AdmittedForFits | crates/net/ratelimiter/src/lib.rs:209-240 | the window potential for one key of the keyed limiter, with sweeps and other keys' operations interleaved |
| KeyedLimiter.KeyWindowBound | crates/net/ratelimiter/src/lib.rs:209-240 | for a key whose bucket keeps its shape and backlog, the cost admitted in any window is at most its length plus one bucket, whatever sweeps, re-applied quotas and operations on other keys are interleaved |
| KeyedLimiter.StepKeepsIndistinguishable | crates/net/ratelimiter/src/lib.rs:209-313 | every operation answers alike on limiters whose buckets agree from now on, or are full and free of charge, and leaves them so |
| KeyedLimiter.SameAnswersForever | crates/net/ratelimiter/src/lib.rs:209-313 | indistinguishable limiters give the same answers to every later run |
| KeyedLimiter.DifferentShapesTell | crates/net/ratelimiter/src/lib.rs:209-313 | two full buckets of different shapes, not both free of charge, are told apart by the answers to some run that starts at once |
| KeyedLimiter.ProbeTells | crates/net/ratelimiter/src/lib.rs:247-267 | a charge, a resize and a peek tell buckets apart whose tokens differ in price |
| KeyedLimiter.ChargesTell | crates/net/ratelimiter/src/lib.rs:209-224 | charging tokens until one refuses tells buckets apart that differ in depth only |
| KeyedLimiter.SweepIsInvisibleIff | crates/net/ratelimiter/src/lib.rs:305-313 | after any run, with the clock in range: every later run gets the same answers with the sweep as without it, if and only if each bucket the sweep drops has the default shape or neither it nor the default limits anything |
| KeyedLimiter.SweepNeverChangesAnAnswer | crates/net/ratelimiter/src/lib.rs:305-313 | the sufficient half for every limiter state and every instant: with only such buckets swept, no later run can tell that a sweep happened |
| KeyedLimiter.SweepForgetsAPerKeyQuota | crates/net/ratelimiter/src/lib.rs:305-313 | a key with its own quota falls back to the default after a sweep: a concrete charge changes from granted to too large |
| KeyedLimiter.KeyedRateLimiter.TryConsumeN | crates/net/ratelimiter/src/lib.rs:209-224 | the whole new state and answer of a charge, including the entry it creates even when refused |
| KeyedLimiter.KeyedRateLimiter.TryPeek | crates/net/ratelimiter/src/lib.rs:232-240 | the answer a charge would get, with no state change |
| KeyedLimiter.KeyedRateLimiter.SetKeyQuota | crates/net/ratelimiter/src/lib.rs:250-278 | the whole new state after giving a key its own quota |
| KeyedLimiter.KeyedRateLimiter.ReplenishAllEveryFor | crates/net/ratelimiter/src/lib.rs:289-297 | the key's own replenish interval, or the default |
| KeyedLimiter.KeyedRateLimiter.ClearKey | crates/net/ratelimiter/src/lib.rs:301-303 | the whole new state after dropping a key |
| KeyedLimiter.KeyedRateLimiter.Sweep | crates/net/ratelimiter/src/lib.rs:308-313 | the whole new state after dropping replenished buckets |
| SelfLimiter.StepMovesTheLine | crates/net/ratelimiter/src/self_limiter.rs:119-277 | every call moves a key's line forward only: items join at the back and leave, surfaced or lost, from the front |
| SelfLimiter.EnqueueReplies | crates/net/ratelimiter/src/self_limiter.rs:110-148 | handed back exactly when the cost exceeds capacity; issued exactly when it fits, nothing is parked ahead and the bucket admits it; queued otherwise |
| SelfLimiter.EnqueueTakesEffect | crates/net/ratelimiter/src/self_limiter.rs:119-148 | a handed-back request changes nothing, an issued one spends exactly its cost, a queued one becomes the last of its line, uncharged and with the timer of a waiting line left alone |
| SelfLimiter.SendReplies | crates/net/ratelimiter/src/self_limiter.rs:100-108 | a send goes out exactly when the bucket admits it and spends its cost exactly then; parked lines are untouched |
| SelfLimiter.PollReplies | crates/net/ratelimiter/src/self_limiter.rs:195-253 | a poll yields the head exactly when its bucket admits it, spending its cost then; an admitted or oversized head leaves the line, one that must wait stays; the key is forgotten exactly when its line is empty |
| SelfLimiter.CallsStayWithTheirKey | crates/net/ratelimiter/src/self_limiter.rs:173-180 | a clear empties the line and renews the bucket of its key; every call leaves the line, timer and bucket of all other keys alone |
| SelfLimiter.SurfacesInOrder | crates/net/ratelimiter/src/self_limiter.rs:119-277 | in every run, values surfaced then values parked form a subsequence of the line plus the values accepted |
| SelfLimiter.NothingIsLost | crates/net/ratelimiter/src/self_limiter.rs:119-277 | without a clear or a shrink below a parked cost, surfaced then parked is everything accepted, in order |
| SelfLimiter.FifoConservation | crates/net/ratelimiter/src/self_limiter.rs:60-65 | from a fresh throttle: both statements above for every key and every run |
| SelfLimiter.EveryItemIsAccountedFor | crates/net/ratelimiter/src/self_limiter.rs:119-277 | accepted counts equal surfaced plus parked plus lost, in every run |
| SelfLimiter.ShrinkDropsAParkedHead | crates/net/ratelimiter/src/self_limiter.rs:157-171 | a shrink below the cost of a parked head makes the next poll of its fired timer drop it |
| SelfLimiter.PollsLoseAMisfit | crates/net/ratelimiter/src/self_limiter.rs:187-253 | a queue with an item that does not fit loses one to some sequence of polls |
| SelfLimiter.NeverLosesIff | crates/net/ratelimiter/src/self_limiter.rs:187-277 | no later run without a clear or resize of the key loses one of its items, if and only if every parked item fits the bucket |
| SelfLimiter.RunKeepsDeadlines | crates/net/ratelimiter/src/self_limiter.rs:119-277 | no run sets a timer past what the clock can reach |
| SelfLimiter.ResizeLosesNothingIff | crates/net/ratelimiter/src/self_limiter.rs:157-171 | after any run, a resize, shrink or growth, loses none of the parked items in any later run without a clear or further resize, if and only if every parked cost fits the new capacity |
| SelfLimiter.QueuesAreNeverEmpty | crates/net/ratelimiter/src/self_limiter.rs:209-216 | no run of any calls leaves a key parked without items, so the empty-queue branch of the poll is dead |
| SelfLimiter.SurfacedIsPaidForOnce | crates/net/ratelimiter/src/self_limiter.rs:60-65 | in every window, the bucket is charged exactly the cost of what surfaced for the key and of its successful sends |
| SelfLimiter.OutboundWindowBound | crates/net/ratelimiter/src/self_limiter.rs:55-65 | what goes out to a peer in any window stays within the window's length plus one bucket, also when its unchanged quota is applied again |
| SelfLimiter.SendHintIsExact | crates/net/ratelimiter/src/self_limiter.rs:90-108 | the hint of a refused send names the first instant at which it succeeds; for a cost above capacity it is the key's full interval, always |
| SelfLimiter.FiredTimerYields | crates/net/ratelimiter/src/self_limiter.rs:205-253 | with exact timers, a poll that meets a fired timer yields that key's head and takes no other branch |
| SelfLimiter.StepKeepsTimersExact | crates/net/ratelimiter/src/self_limiter.rs:119-277 | every call that does not charge a parked key by a send or give it another quota keeps every timer exact: fired at precisely the later instants at which the bucket admits the head |
| SelfLimiter.PollNeverMisfires | crates/net/ratelimiter/src/self_limiter.rs:187-277 | in runs of such calls no parked queue is empty, a timer has fired exactly when its head is admitted, and a fired timer always yields |
| SelfLimiter.EarlyPollRearmsExactly | crates/net/ratelimiter/src/self_limiter.rs:236-243 | a poll whose timer fired too early, because a send or resize moved the bucket, keeps the queue and re-arms the timer exactly |
| DrainLine.LagsDue | crates/net/ratelimiter/src/lib.rs:321-334 | with less room, at least the same backlog and no cheaper charges, nothing in a line is due sooner |
| DrainLine.NothingIsServedEarly | crates/net/ratelimiter/src/lib.rs:321-334 | however a line waits and is served, no charge is served before the instant at which it is due |
| DrainLine.DueTimesAreASchedule | crates/net/ratelimiter/src/lib.rs:321-334 | the line can be served at exactly the instants at which its charges are due |
| DrainSchedule.NothingSurfacesEarly | crates/net/ratelimiter/src/self_limiter.rs:187-277 | in every run without a clear or resize of the key, its `i`-th parked item surfaces at or after the instant at which it is due |
| DrainSchedule.ItemsDrainOnTime | crates/net/ratelimiter/src/self_limiter.rs:195-253 | with an exact timer, polls at the due instants surface the parked items one by one, each at the very instant at which it is due |
| DrainSchedule.ShrinkOnlyDelaysIff | crates/net/ratelimiter/src/self_limiter.rs:166-168 | after any run, a shrink loses no parked item and surfaces none before it was due without the shrink, in every later run without a clear or further resize, if and only if every parked cost fits the new capacity |
| DrainSchedule.StepKeepsPunctual | crates/net/ratelimiter/src/self_limiter.rs:100-277 | sends, enqueues, polls, clears, and resizes that do not grow a parked key's bucket, never make a timer late |
| DrainSchedule.TimersAreNeverLate | crates/net/ratelimiter/src/self_limiter.rs:187-253 | in every run of such calls, wherever a parked head would be admitted its timer has fired |
| DrainSchedule.ResizeMakesLateIff | crates/net/ratelimiter/src/self_limiter.rs:169-171 | a resize makes an exact timer late if and only if the head fits the new bucket and the wait it would now be given ends before the timer |
| DrainSchedule.GrowthMakesATimerLate | crates/net/ratelimiter/src/self_limiter.rs:169-171 | a run in which a growth leaves a head admissible at once behind a timer that has not fired 59 nanoseconds later |
| SelfLimiter.SelfRateLimiter.TrySend | crates/net/ratelimiter/src/self_limiter.rs:100-108 | the whole new state and the reply, with the key's own interval for an oversized cost |
| SelfLimiter.SelfRateLimiter.Enqueue | crates/net/ratelimiter/src/self_limiter.rs:119-148 | the whole new state and the reply, which `EnqueueReplies` and `EnqueueTakesEffect` characterise without the machine |
| SelfLimiter.SelfRateLimiter.SetPeerQuota | crates/net/ratelimiter/src/self_limiter.rs:169-171 | the whole new state after a resize |
| SelfLimiter.SelfRateLimiter.ClearPeer | crates/net/ratelimiter/src/self_limiter.rs:177-180 | the whole new state after dropping a key's bucket and queue |
| SelfLimiter.SelfRateLimiter.RearmOrRemove | crates/net/ratelimiter/src/self_limiter.rs:256-277 | arms the timer for the new head against the live bucket, or drops the drained key; a key that is not parked changes nothing |
| SelfLimiter.SelfRateLimiter.PollReady | crates/net/ratelimiter/src/self_limiter.rs:195-253 | pending and no change when nothing has fired; otherwise the step and reply of some fired key |
| ChainLogs.RangeIsExact | crates/chain/index/src/engine.rs:290-293 | a block range yields exactly the canonical logs of its blocks, in order |
| ChainLogs.OneSortedArrangement | crates/chain/index/src/engine.rs:326-330 | sorting by block and log index restores the canonical order whatever order the provider chose |
| ChainIndex.ResumesAtTheFirstUncovered | crates/chain/index/src/engine.rs:230-237 | a sync resumes at the first block from the deployment block on that the cursor does not cover |
| ChainIndex.CheckpointHashOnlyAtTheHead | crates/chain/index/src/engine.rs:249-255 | a committed cursor stands at the end of its page, with the hash of the head when that is the head and the zero hash below it |
| ChainIndex.ApplyKeepsPrefix | crates/chain/index/src/engine.rs:332-341 | applying a log at or before the frontier ignores a replay or extends the canonical prefix by one |
| ChainIndex.StepKeepsInv | crates/chain/index/src/engine.rs:223-351 | every step of the engine, errors and crashes included, keeps the seen logs a canonical prefix that covers the cursor |
| ChainIndex.SeenIsAlwaysACanonicalPrefix | crates/chain/index/src/engine.rs:23-39 | in every run, the logs seen are a prefix of the canonical order from the start block, include everything up to the cursor, and the cursor stays within reported heads |
| ChainIndex.CursorNeverMovesBack | crates/chain/index/src/cursor.rs:8-13 | over any stretch of any run the cursor only moves forward |
| ChainIndex.IndexedIsFoldOfSeen | crates/chain/index/src/engine.rs:30-38 | an indexer that ignores repeated logs holds the fold of the distinct logs delivered |
| ChainIndex.IndexerHoldsAPrefixFold | crates/chain/index/src/engine.rs:30-38 | at every point of every run such an indexer holds the fold of a canonical prefix that reaches at least the cursor |
| ChainIndex.UninterruptedRunsStayInStep | crates/chain/index/src/indexer.rs:50-52 | in every run in which no page is abandoned half applied, the logs seen are exactly those the cursor covers, plus those already applied of the current page |
| ChainIndex.AbandonedPageStaysInStepIff | crates/chain/index/src/engine.rs:332-351 | an apply error or crash within a page leaves indexer and cursor in step if and only if none of its logs was applied, or the cursor had already reached the last block of `u64` |
| ChainIndex.RunStaysWithinHeads | crates/chain/index/src/engine.rs:223-270 | no run applies a log beyond the highest head reported so far |
| ChainIndex.CaughtUpIsInStep | crates/chain/index/src/engine.rs:30-38 | in every run, whatever was abandoned before, a cursor that has reached the highest reported head covers exactly the logs seen |
| ChainIndex.CrashLeavesALogAboveTheCursor | crates/chain/index/src/indexer.rs:50-52 | a run in which a crash between apply and cursor commit leaves a log applied that the cursor does not cover |
| ChainIndex.SyncEndsAtTheHeadIff | crates/chain/index/src/engine.rs:239-267 | once the page that reaches the head is committed the sync can end if and only if the head is below `u64::MAX`; at that head the same last block is requested again |
| ChainIndex.TopHeadNeverEnds | crates/chain/index/src/engine.rs:239-267 | with the head at `u64::MAX` a sync that meets no error never ends, however many steps it takes |
| EventEngine.TilesCoverOnce | crates/chain/index/src/engine.rs:238-267 | tiling pages contain every block of the stretch in exactly one page and no other block |
| EventEngine.Log2IsFloor | crates/chain/index/src/engine.rs:284-308 | the retry bound is the floor of the base-two logarithm |
| EventEngine.PageEndSpan | crates/chain/index/src/engine.rs:273-276 | a page asks for `page_size` blocks or for what is left up to the head |
| EventEngine.ShrinkHalves | crates/chain/index/src/engine.rs:294-298 | a rejected page is retried from the same block at half its width, which costs one unit of the logarithm |
| EventEngine.PageSizeHalves | crates/chain/index/src/engine.rs:298 | a range error halves the page size, rounding up, never below one |
| EventEngine.Engine.EngineKeepsInv | crates/chain/index/src/engine.rs:223-351 | the engine's own state always satisfies the machine's invariant |
| EventEngine.Engine.FetchPage | crates/chain/index/src/engine.rs:284-308 | covers a prefix of the requested page, in at most floor(log2(width)) retries, with the canonical logs of what it covers; page size and width are those after exactly that many halvings; a provider that accepts single blocks always succeeds |
| EventEngine.Engine.CommitPage | crates/chain/index/src/engine.rs:317-351 | applies the page in canonical order and moves the cursor only after the last log; an error leaves a prefix applied and the cursor alone |
| EventEngine.Engine.SyncTo | crates/chain/index/src/engine.rs:223-270 | success tiles the stretch from resume to head with committed pages and applies its logs once each in order; failure leaves a prefix and the cursor at the last committed page; it fails only when the last query or the last apply failed |
| EventEngine.Engine.SyncOnce | crates/chain/index/src/engine.rs:212-220 | without a finalized head nothing changes; with one the outcome is that of a sync to it, on success and on failure; it fails only when the last query or the last apply failed, so never with a tolerant provider and indexer |
| EventEngine.Engine.Restart | crates/chain/index/src/engine.rs:144-147 | a new process over the same stores keeps the cursor and the indexer's state |
| Backoff.JitteredIsExact | crates/net/dialer/src/backoff.rs:32-35 | where `raw * 128` fits an `i64`, the wrapped arithmetic is exact and the jittered value is within an eighth of raw |
| Backoff.BackoffIsWithinAnEighth | crates/net/dialer/src/backoff.rs:19-43 | while the capped exponential plus a 1024th of it fits an `i64`, the backoff is the larger of one second and a value within an eighth of it |
| Backoff.BackoffNeverShrinks | crates/net/dialer/src/backoff.rs:26-35 | for a fixed seed, more failures never shorten the backoff while 127 times the capped exponential fits an `i64` |
| Backoff.OverflowShrinksTheBackoff | crates/net/dialer/src/backoff.rs:33-35 | a cap just past that limit with which a second failure shortens the backoff |
| Backoff.NeverShrinksIff | crates/net/dialer/src/backoff.rs:26-35 | no configuration with caps up to `cap`, and no seed, ever lets a failure shorten the backoff, if and only if `cap * 127` fits an `i64` |
| Backoff.RawDoubles | crates/net/dialer/src/backoff.rs:29-30 | for every base and cap the raw backoff starts at the base and doubles per failure up to the cap, for ten doublings, and then stands still |
| Backoff.RawIsDocumentedIff | crates/net/dialer/src/backoff.rs:17-30 | the raw backoff is the documented `min(base * 2^(failures-1), max)` if and only if there were at most eleven failures, the base is zero or the cap is at most 1024 times the base; it never exceeds it |
| Backoff.TwelfthFailureStaysPut | crates/net/dialer/src/backoff.rs:17-30 | a base of one second under a cap of an hour: 2048 seconds documented, 1024 computed |
| Backoff.OverflowCollapsesTheBackoff | crates/net/dialer/src/backoff.rs:33-35 | once `raw` plus a 1024th of it exceeds an `i64`, some seed turns the backoff into one second |
| Backoff.JitterWithinAnEighthIff | crates/net/dialer/src/backoff.rs:17-35 | in wrapping arithmetic, for every raw backoff: all seeds stay within an eighth if and only if `raw` plus a 1024th of it fits an `i64` |
| Backoff.RemainingCountsDown | crates/net/dialer/src/backoff.rs:37-42 | the backoff is over exactly its length after the failure, and the remaining time counts down to that second |
| DialGuard.CountsStayBelowThreshold | crates/net/dialer/src/tracker.rs:321-357 | with a threshold set, after any run every stored entry counts from one failure to one below the threshold, evictions included |
| DialGuard.CachesStayWithinCapacity | crates/net/dialer/src/tracker.rs:321-430 | no run takes either cache past its capacity |
| DialGuard.StoreSpares | crates/net/dialer/src/tracker.rs:332-352 | storing an id in a cache, full or not, keeps it and every other entry except the least recent one of a full cache |
| DialGuard.GuardRefinesStandings | crates/net/dialer/src/tracker.rs:321-430 | with both caches present, and as long as an id is not itself evicted, it is treated as if it had a record of its own: other ids do not influence it, whether they are evicted or not |
| DialGuard.FailureBacksOffExactly | crates/net/dialer/src/tracker.rs:346-352 | a failure below the threshold, in a cache full or not, keeps the id in backoff for exactly its backoff time, and not at all if the count wrapped to zero |
| DialGuard.BanRunsItsTerm | crates/net/dialer/src/tracker.rs:389-406 | without further failures or a clear, queries keep a ban or drop it after its term, and never renew it |
| DialGuard.ThresholdBans | crates/net/dialer/src/tracker.rs:332-343 | with both caches present and the id not evicted, its threshold-th consecutive failure bans it, and it is banned at a later instant if and only if its TTL has not run out, whatever queries come in between, within its term or after |
| DialGuard.ClearForgets | crates/net/dialer/src/tracker.rs:360-369 | a clear lifts both the ban and the backoff |
| DialGuard.PromotionEndsTheBackoff | crates/net/dialer/src/tracker.rs:321-357 | the failure that reaches the threshold ends the backoff and bans from that instant if bans are kept; without a backoff cache nothing is recorded |
| DialGuard.TouchSpares | crates/net/dialer/src/tracker.rs:389-415 | an entry that was just read is not the next one pushed out by a newcomer, in a cache of at least two |
| DialBook.DropKeepsConsistent | crates/net/dialer/src/tracker.rs:141-145 | removing any set of peers keeps the three maps in agreement |
| DialBook.AddPendingKeepsConsistent | crates/net/dialer/src/tracker.rs:97-99 | queueing an untracked request keeps the maps in agreement and adds exactly that request |
| DialBook.AddInFlightKeepsConsistent | crates/net/dialer/src/tracker.rs:300-306 | registering an untracked dial keeps the maps in agreement and adds exactly that request |
| DialBook.StartKeepsConsistent | crates/net/dialer/src/tracker.rs:147-155 | moving pending requests to in flight keeps the maps in agreement |
| DialBook.IdsAreUnique | crates/net/dialer/src/tracker.rs:26-27 | no application id is tracked under two peers |
| DialBook.ScanPicksOldestFresh | crates/net/dialer/src/tracker.rs:124-139 | the scan picks exactly the oldest unexpired requests, in queue order |
| DialBook.ScanPartitions | crates/net/dialer/src/tracker.rs:124-155 | picked and expired requests are disjoint and what remains queued is the unscanned rest |
| DialTracker.MapsAlwaysAgree | crates/net/dialer/src/tracker.rs:26-38 | after every run pending and in flight are disjoint, the index is exactly the id-to-peer map of tracked requests, ids are unique and the queue is within its bound |
| DialTracker.CleanupRemovesExactlyTheOverdue | crates/net/dialer/src/tracker.rs:229-271 | a cleanup removes exactly the stale pending and timed-out in-flight requests and leaves the rest as they were |
| DialTracker.SweepLeavesNothingOverdue | crates/net/dialer/src/tracker.rs:106-109 | when a cleanup is due, nothing overdue is left before the batch is picked; otherwise nothing changes |
| DialTracker.EnqueueAcceptsIff | crates/net/dialer/src/tracker.rs:82-102 | a request is accepted exactly when its id may be dialled, neither peer nor id is tracked and the queue has room; exactly which error every other case gets |
| DialTracker.PrepareStartsIff | crates/net/dialer/src/tracker.rs:168-193 | a dial starts exactly when its id may be dialled, neither peer nor id is tracked and an address is reachable; exactly which error every other case gets, the ban first |
| DialTracker.EnqueueQueuesLast | crates/net/dialer/src/tracker.rs:93-101 | an accepted request is the last of the queue; a refused one changes nothing; no other peer is affected |
| DialTracker.PreparedIsInFlight | crates/net/dialer/src/tracker.rs:284-306 | a dial started at once is in flight with the clock reading as its start, and is overdue exactly after the in-flight timeout |
| DialTracker.ResolveEndsExactlyOneDial | crates/net/dialer/src/tracker.rs:196-201 | resolving ends the tracking of that dial in flight and of nothing else; pending requests cannot be resolved |
| DialTracker.CleanupComesDueAgain | crates/net/dialer/src/tracker.rs:106-109 | a cleanup is due exactly when more than the interval has passed since the last one, asked for or run by a batch |
| DialTracker.StepConserves | crates/net/dialer/src/tracker.rs:82-271 | each call moves a peer's request between accepted, tracked and settled without losing or duplicating it |
| DialTracker.EveryRequestIsInOnePlace | crates/net/dialer/src/tracker.rs:82-271 | over every run the requests accepted for a peer are, in order, those settled and then the one still tracked |
| DialTracker.BatchIsOldestAndBounded | crates/net/dialer/src/tracker.rs:111-139 | a batch is the oldest unexpired requests, never past the in-flight limit, and empty when the limit is already reached |
| DialTracker.BatchFillsTheSlots | crates/net/dialer/src/tracker.rs:111-139 | a batch is exactly as large as the caller, the free slots and the unexpired requests allow |
| DialTracker.DispatchedIsInFlight | crates/net/dialer/src/tracker.rs:147-155 | a dispatched request is in flight, stamped with the time of the batch and otherwise unchanged, no longer pending, and overdue exactly after the in-flight timeout |
| DialTracker.DueBatchLeavesNothingOverdue | crates/net/dialer/src/tracker.rs:105-155 | after a batch that ran the due cleanup nothing pending or in flight is overdue |
| DialTracker.DispatchIsFifo | crates/net/dialer/src/tracker.rs:82-162 | over every run requests are dispatched in the order they were queued; none overtakes another |
| DialTracker.ChecksForgetNothing | crates/net/dialer/src/tracker.rs:372-430 | asking about an id loses no failure count and no ban, except an expired ban of that id |
| DialTracker.RefusedWhileBanned | crates/net/dialer/src/tracker.rs:82-86 | both ways of dialling an id fail with the ban error exactly while it is banned |
| DialTracker.BannedIdCannotBeDialled | crates/net/dialer/src/tracker.rs:321-357 | after `ban_after` failures in a row both ways of dialling the id fail with the ban error exactly for the term of the ban, whatever the queues hold |
| DialTracker.FailedIdMustWait | crates/net/dialer/src/tracker.rs:372-430 | after a failure that does not ban, both ways of dialling the id fail with the backoff error exactly for its backoff time |
| DialTracker.Tracker.Enqueue | crates/net/dialer/src/tracker.rs:82-102 | the error, in the source's order of checks, and the whole new state; an error leaves the three maps unchanged |
| DialTracker.Tracker.PrepareAndStart | crates/net/dialer/src/tracker.rs:168-193 | the error and the whole new state, both characterised by `PrepareStartsIff` and `PreparedIsInFlight`; an error leaves the three maps unchanged |
| DialTracker.Tracker.Resolve | crates/net/dialer/src/tracker.rs:196-201 | hands back the in-flight request and stops tracking it, or changes nothing |
| DialTracker.Tracker.CleanupExpired | crates/net/dialer/src/tracker.rs:229-271 | the whole new state, and exactly the expired and timed-out requests |
| DialTracker.Tracker.NextBatch | crates/net/dialer/src/tracker.rs:105-162 | the whole new state and the dispatched batch, with the cleanup when it is due; `BatchIsOldestAndBounded`, `BatchFillsTheSlots` and `DispatchedIsInFlight` say what they are |
| DialTracker.Tracker.RecordBackoff | crates/net/dialer/src/tracker.rs:321-357 | the whole new state of both caches after a failure |
| DialTracker.Tracker.ClearBackoff | crates/net/dialer/src/tracker.rs:360-369 | the whole new state of both caches after a clear |
| DialTracker.Tracker.CheckGuard | crates/net/dialer/src/tracker.rs:372-430 | ban before backoff, and what each query touches or drops |
| Store.ApplyLookup | crates/storage/indexeddb/src/store.rs:222-241 | an operation changes exactly the keys it touches |
| Store.TxMut.Staged | crates/storage/indexeddb/src/store.rs:175-191 | the staged result stands for the whole list of operations over every committed map, and is absent exactly when no operation touches the key |
| Store.TxMut.Get | crates/storage/indexeddb/src/store.rs:195-202 | read-your-writes: a read equals a lookup after replaying the staged operations as commit does |
| Store.TxMut.DeleteRow | crates/storage/indexeddb/src/store.rs:259-274 | reports presence exactly as in the replayed view, and stages the delete |
| Store.TxMut.PutRow | crates/storage/indexeddb/src/store.rs:247-257 | the view gains exactly this row |
| Store.TxMut.ClearTable | crates/storage/indexeddb/src/store.rs:276-279 | the view loses exactly this table's rows |
| Store.TxMut.EnsureTable | crates/storage/indexeddb/src/store.rs:281-284 | creates a missing table at once and changes no row |
| Store.TxMut.Commit | crates/storage/indexeddb/src/store.rs:216-245 | the committed map becomes the view and the batch is queued; an empty transaction queues nothing |
| SecondaryIndex.PutKeepsIndexExactIff | crates/storage/src/traits.rs:236-253 | from an exact index, `put_indexed` keeps it exact if and only if no other row has the new index key |
| SecondaryIndex.DeleteKeepsIndexExact | crates/storage/src/traits.rs:255-266 | `delete_indexed` keeps an exact index exact |
| SecondaryIndex.PutIsReadBack | crates/storage/src/traits.rs:236-253 | an indexed put is read back under its primary key and through its index key |
| SecondaryIndex.DeleteRemovesRowAndEntry | crates/storage/src/traits.rs:255-266 | an indexed delete removes the row and the index entry it had, and no other row or entry |
| SecondaryIndex.ClearLeavesNothing | crates/storage/src/traits.rs:268-272 | after `clear_indexed` no lookup in either table and no read through the index finds anything |
| SecondaryIndex.WritesStayInTheirTables | crates/storage/src/traits.rs:235-273 | no indexed write changes a row of a third table |
| SecondaryIndex.WritesKeepIndexExact | crates/storage/src/traits.rs:235-273 | under index-key uniqueness any sequence of indexed writes keeps the index the inverse of `extract` |
| SecondaryIndex.FromWritesSameRows | crates/storage/src/traits.rs:235-273 | a batch that amounts to unique indexed writes does so over every map with the same rows, whatever empty tables exist |
| SecondaryIndex.GetViaFindsExactly | crates/storage/src/traits.rs:203-213 | reading through an exact index returns a value exactly when some primary row holds it under that index key |
| SecondaryIndex.RunPut | crates/storage/src/traits.rs:236-253 | over a staged transaction, the view changes by exactly the indexed put |
| SecondaryIndex.RunDelete | crates/storage/src/traits.rs:255-266 | over a staged transaction, the view changes by exactly the indexed delete, reporting presence |
| SecondaryIndex.RunClear | crates/storage/src/traits.rs:268-272 | over a staged transaction, the view loses both tables' rows |
| SecondaryIndex.ReadVia | crates/storage/src/traits.rs:204-212 | the two-step read on the transaction's view |
| SecondaryIndex.RunTransaction | crates/storage/src/traits.rs:86-94 | a committed transaction of unique indexed writes takes the committed map from exact to exact and queues a batch that amounts to those writes; nothing is queued only when nothing changed |
| Mirror.EnsureTableAddsNoRow | crates/storage/indexeddb/src/store.rs:281-284 | `ensure_table` creates the table in memory at once, changes no row and queues nothing |
| Mirror.StepKeepsWhole | crates/storage/indexeddb/src/persist.rs:44-71 | every step, failures and overtaking sends included, keeps IndexedDB at the state of whole committed transactions, none of them landed or under way twice |
| Mirror.StepKeepsOrdered | crates/storage/indexeddb/src/store.rs:216-245 | with sends in commit order, what landed and what is under way is a subsequence of the commits |
| Mirror.QueueIsWhatIsMissing | crates/storage/indexeddb/src/persist.rs:66-71 | with sends in commit order and no failed batch, applying what is queued or about to be sent to IndexedDB gives the in-memory map |
| Mirror.ReloadIsNeverTorn | crates/storage/indexeddb/src/persist.rs:123-156 | in every run a reload reopens at the state of some committed transactions, each whole and at most once; in commit order when sends are |
| Mirror.ReloadIsAPrefix | crates/storage/indexeddb/src/store.rs:37-50 | with sends in commit order and no failed batch, a reload at any moment, also between a commit and its send, reopens at a prefix of the committed transactions |
| Mirror.ForeignTableLosesTheBatch | crates/storage/indexeddb/src/persist.rs:126-130 | a batch that also writes a table without an object store is lost as a whole |
| Mirror.OvertakingSendDiverges | crates/storage/indexeddb/src/store.rs:240-243 | a run in which the second of two commits on one key is sent first leaves IndexedDB with the older value once both have landed |
| Mirror.Hydrate | crates/storage/indexeddb/src/store.rs:37-50 | the in-memory map is rebuilt exactly from the persisted rows, in whatever order they arrive |
| Mirror.CommitStep | crates/storage/indexeddb/src/store.rs:216-245 | committing a transaction on the store is the machine's commit followed at once by its send |
| Mirror.MirrorTask.DrainOne | crates/storage/indexeddb/src/persist.rs:123-156 | takes the oldest batch and applies it whole or drops it whole |
| IndexedMirror.StepKeepsIndexedHistory | crates/storage/indexeddb/src/store.rs:216-245 | a commit that amounts to unique indexed writes over the in-memory map does so over the replayed history |
| IndexedMirror.ReloadKeepsIndexExact | crates/storage/indexeddb/src/store.rs:37-50 | when every commit consists of unique indexed writes over the map as it then was, sends follow commit order and no batch fails, the in-memory map and a database reopened at any moment have an exact index |
| IndexedMirror.LostDeleteBreaksTheIndex | crates/storage/indexeddb/src/persist.rs:48-52 | a run of two unique indexed commits, the first of which fails to persist, keeps the in-memory index exact and reloads with two rows under one index key |
| BoundedLru.EvictsTheShortestPrefix | crates/store/src/bounded_lru.rs:156-171 | eviction removes exactly the shortest least-recently-used prefix that makes room |
| BoundedLru.InsertStaysInBudget | crates/store/src/bounded_lru.rs:83-110 | resident bytes never exceed the budget after an insert |
| BoundedLru.InsertFindsTheValue | crates/store/src/bounded_lru.rs:98-109 | a value that fits the budget is found right after its insert |
| BoundedLru.InsertEvictsNoMoreThanNeeded | crates/store/src/bounded_lru.rs:83-110 | the inserted value is the most recent entry, the others keep their order, and only the shortest least-recently-used prefix that makes room goes |
| RecencyList.TouchMakesMostRecent | crates/store/src/bounded_lru.rs:70-76 | a hit moves to the recent end and the rest keep their order; a miss changes nothing |
| BoundedLru.OversizedInsertEmptiesIff | crates/store/src/bounded_lru.rs:26-29 | an oversized insert leaves no resident bytes, and an empty store exactly when the most recent other entry has positive size or there is none |
| BoundedLru.ZeroSizedEntrySurvives | crates/store/src/bounded_lru.rs:26-29 | a store with a single zero-sized entry still holds it after an oversized insert |
| BoundedLru.TickIsNewestIff | crates/store/src/bounded_lru.rs:150-154 | up to the first tick after the clock wraps, a new entry extends the recency order if and only if the clock has not wrapped or the store is empty; that first tick makes it the oldest |
| BoundedLru.HeadIsOldest | crates/store/src/bounded_lru.rs:159-164 | the entry with the smallest tick is unique and is the head of the recency list |
| BoundedLru.BoundedLruStore.Get | crates/store/src/bounded_lru.rs:70-76 | the recency list gets the key touched, and the value is the listed one |
| BoundedLru.BoundedLruStore.Remove | crates/store/src/bounded_lru.rs:118-123 | the recency list loses the key and exactly its bytes are freed: the subtraction never saturates |
| BoundedLru.BoundedLruStore.EvictUntilFits | crates/store/src/bounded_lru.rs:157-171 | the timestamped map follows eviction on the recency list |
| BoundedLru.BoundedLruStore.InsertValue | crates/store/src/bounded_lru.rs:83-110 | the timestamped map follows the insert on the recency list, with exact byte accounting within the budget; `InsertFindsTheValue` and `InsertEvictsNoMoreThanNeeded` say what that insert does |
| Resolver.VisitKeeps | crates/net/dnsaddr-doh/src/resolver.rs:75-141 | a visit keeps the bookkeeping exact, stays within reach of the root, and leaves no record of a newly fetched name unfollowed unless cut for depth |
| Resolver.ResolutionIsSound | crates/net/dnsaddr-doh/src/resolver.rs:42-72 | over any graph no name is fetched twice, no leaf returned twice, every fetched name is within `max_depth` hops and every leaf is a dialable address a fetched name publishes |
| Resolver.VisitCutsDeep | crates/net/dnsaddr-doh/src/resolver.rs:85-92 | a name cut for depth is one visited anyway, or the end of a chain of distinct names just longer than the bound |
| Resolver.ShortChainsResolveCompletely | crates/net/dnsaddr-doh/src/resolver.rs:42-72 | if no chain of distinct nested names from the root has more than `max_depth` hops, every reachable name is fetched and the result is exactly the reachable dialable leaves, cycles or not |
| Resolver.UnambiguousDepthsResolveToTheRadius | crates/net/dnsaddr-doh/src/resolver.rs:42-72 | if no name within `max_depth` hops ends a chain of one hop more, exactly the names within `max_depth` hops are fetched and exactly their dialable leaves returned |
| Resolver.UncutResolutionIsComplete | crates/net/dnsaddr-doh/src/resolver.rs:42-72 | with nothing lost to the depth bound, the result is exactly the dialable leaves reachable from the root |
| Resolver.DepthBoundCanHideANearName | crates/net/dnsaddr-doh/src/resolver.rs:85-92 | a name within `max_depth` hops can go unfetched when its parent is first met along a longer branch |
| Resolver.LongChainCanBeHarmless | crates/net/dnsaddr-doh/src/resolver.rs:85-92 | a graph with a chain longer than the bound, whose end is also near, of which every name is fetched |
| Resolver.FiniteGraphResolvesCompletely | crates/net/dnsaddr-doh/src/resolver.rs:42-72 | with a bound as large as a finite set of names that references do not lead out of, the resolution is complete |
| Resolver.Driver.ResolveInto | crates/net/dnsaddr-doh/src/resolver.rs:75-141 | leaves exactly the state of the walk; terminates on every graph for bounds below 255, and at 255, where the wrapping `u8` depth is no bound, on every finite graph |
| Resolver.ResolveDnsaddr | crates/net/dnsaddr-doh/src/resolver.rs:51-72 | returns the leaves of the walk from the root; at a bound of 255 exactly the dialable leaves reachable from it |

## Left out

- EventEngine.Engine.SyncTo: requires a head below `u64::MAX`, as does SyncOnce; at that head the source loop never ends (`ChainIndex.TopHeadNeverEnds`). The crash machine in `ChainIndex` has no such bound.
- Resolver.Driver.ResolveInto: at a bound of 255 requires that finitely many names are reachable, as does ResolveDnsaddr; otherwise nothing ends the walk.
- BoundedLru.BoundedLruStore.Get: requires fewer than 2^64 ticks so far, as does InsertValue; the next tick is the first that breaks the order (`BoundedLru.TickIsNewestIff`).
- KeyedLimiter.SweepIsInvisibleIff: stated for the clock in range of the default bucket and of the dropped ones; the sufficient half (`KeyedLimiter.SweepNeverChangesAnAnswer`) needs no range.
- Resolver.ShortChainsResolveCompletely: one way only, as is UnambiguousDepthsResolveToTheRadius; the converses are false (`Resolver.LongChainCanBeHarmless`).
- A log without a block number: it sorts first and fails the page before any apply, which is an indexer failure at position zero here.
- Concurrent callers of the keyed limiter reading the clock in one order and taking the lock in another; `Gcra.WindowBound` covers any order for one bucket.
- Interleaving within the part of a commit that holds the lock; the send after it is a step of its own (`Mirror.OvertakingSendDiverges` shows why its order matters).
- Wakers, polling contexts and the liveness of `poll_ready`; the `run` and `follow` loops of the engine and their tickers.
- The wording match in `is_range_error`: a query comes back as logs, too wide, or broken.
- `entries` and `count` inside a write transaction, which read only the committed map; cursors; the redb backend; key and value codecs.
- Address filtering and ordering before a dial: whether any address is reachable is a parameter of `PrepareAndStart`.
- `jitter_seed_for` hashing: the seed is an arbitrary function of the id.
- Parsing of DNS-JSON bodies and multiaddrs: a record is nested, a leaf with its dialability, or malformed.
- Metrics, gauges, tracing, FFI, browser UI, CLI, configuration and the gRPC server.
