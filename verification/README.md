# A verified model of the local recommendation daemon

This project models the daemon's compliance store, two-stage ranker, item cache,
binary protocol and framing, worker pool, shutdown protocol, request handler and
client connection pool in Dafny, and proves properties of them over all inputs, all
runs and all interleavings. `dafny verify dfyconfig.toml` checks everything.

## What is modelled

- **Compliance store** (`Policy`, `SlidingWindow`, `PolicyItems`, `PolicyRuns`,
  `PolicyTracking`, `PolicyVerdicts`, `ExposureStore`). Reserve, check, forget and clear
  on sharded counters with a lifetime cap, a two-counter sliding window, bounded
  tracking, and eviction under fail-open. The class is tied, call by call, to a run
  semantics about which the lifetime, frequency and accounting theorems are stated.
- **Item cache** (`Lru`, `LruHistory`, `LruCache`, `ShardedCache`, `ShardedHistory`).
  The list and its index, refined to a recency list, refined to the history of
  operations, shard by shard; routing by mask; scans.
- **Ranker** (`Ranking`, `Rerank`, `Selector`, `RankTheorems`, `BestFirst`). The
  bounded heap as "the best m offered", the greedy re-rank with a hook that has state
  of its own, and both stages together.
- **Protocol** (`Wire`, `Messages`, `Fields`, `Codec`, `WireFormat`, `Truncation`,
  `BinaryCodec`, `Framing`). A printer and a parser that undo each other in both
  directions, the layout as a table, the appending encoder and sticky reader proved equal
  to them, and frames under any chunking and any cut.
- **Worker pool** (`ThreadPool`, `PoolHistory`, `ThreadPoolObject`) and **server
  shutdown** (`Shutdown`, `ShutdownRuns`, `ShutdownOutcomes`, `ConnectionRegistry`):
  systems of atomic steps, with the critical sections also given as methods on the real
  fields.
- **Client** (`SdkClient`, `SdkRuns`, `SdkTheorems`, `SdkOutcomes`, `ClientWaiting`,
  `ClientSteps`, `ClientObjects`): calls of any number of threads over a bounded pool, the
  daemon at the far end of each wire, waiting for a connection, and the client's own loop
  as one thread of that system.
- **Handler and session** (`Preview`, `OpenPreview`, `Interleaving`, `Handler`,
  `HandlerTheorems`, `Delivery`, `HandlerRuns`, `HandlerPolicy`, `HandlerHistory`,
  `HandlerSlates`, `HandlerSelection`, `Replies`, `HandlerObject`, `Session`,
  `ServerSession`, `Conversation`): cache, ranker, store, codec and framing composed into
  one request, one run, recommendations at the same time, and one connection seen from
  both ends.

`Words`, `Arith` and `Lists` hold machine words, arithmetic and list facts.

## How the model reads the source

- The window estimate of src/policy/exposure_store.cpp:103-105 is computed there in
  doubles. Here it is exact: admitting one more show is refused when
  `previous * (W - e) + (current + 1) * W > limit * W`. `Policy.OverLimitIsEstimatePlusOne`
  shows that this decides as the formula over the reals does.
- Scores, weights and factors are reals; recency decay is an arbitrary function of age
  and half-life. On the wire a double is an opaque 64-bit pattern, and the handler's
  readings of patterns as numbers and back are parameters.
- 32-bit window counters, 32-bit lengths and counts, 64-bit timestamps and their casts
  are written out. Event counters and registry tokens are unbounded, and are reduced to
  64 bits only where they go on the wire.
- `hash_mix` is an arbitrary function, the same for cache and compliance store.
- A section under a mutex is one atomic step. Whole handler requests are taken one at a
  time; recommendations that run at the same time are in `Interleaving`, where each
  consultation of the compliance store is a step.
- The kernel is a finite script of adversarial answers to read and send: part of the
  data, a signal, a timeout, a broken pipe or another error. Once the script is used up
  each call moves all it can. "Benign" means that only short transfers and signals occur.
- The clock and the noise on exported counters are inputs.

## Where documentation and code part

The model follows the code.

- `frequency_limit` is documented as the most shows within the window. While attempts on
  an item reach the store in the order of their timestamps, the code admits within a span
  of one window length up to limit + limit * (W - 2) / W, rounded down, and a run reaches
  that or the lifetime cap, whichever is less. In any other order the counters are reset
  and only the lifetime cap is a bound. `PolicyRuns.DocumentedLimitHoldsIff` says for both
  cases exactly which fail-closed stores meet the documented limit;
  `SlidingWindow.WhenTheLimitIsStrict` spells the first condition out. A clock that never
  goes back does not give that order: a recommendation reads it before it consults the
  store, so overlapping ones can consult out of order. `Interleaving.OverlapHeapsUp` is
  such a run, `Interleaving.WhichBoundHoldsOverlapping` the exact condition, and
  `Interleaving.LimitsHoldOneAtATime` the case in which the window limits do hold.
- `select` is documented to return the best first. That holds for all items exactly for
  the configurations of `BestFirst.BestFirstIffSafe`.
- A preview is meant to show what would be served. Fail-closed, with room for only some
  new items, it shows more; `Preview.PreviewIsLiveIff` and `HandlerRuns.PreviewAgreesIff`
  give the exact condition. Fail-open it can show less, because recording may evict the
  counters of an item yet to be offered; `OpenPreview.OpenPreviewIsLiveIff` gives the
  exact condition there.
- `shutdown` is documented to join every worker. `ThreadPool.ShutdownJoinsIff` says
  exactly which calls do; `ThreadPool.LaterShutdownDoesNotJoin` gives one that does not.
- `for_each` is documented to visit oldest first. It goes from the most recently used to
  the least; `LruHistory.OldestFirstIff` says when the two agree.
- docs/protocol.md describes version 1 of the protocol; the model is of version 3.

## Model

| member | source | states |
|---|---|---|
| Policy.OverLimitIsEstimatePlusOne | src/policy/exposure_store.cpp:53-79 | the exact integer test used by the model decides as the source's weighted estimate over the reals does, for every counter state and instant |
| Policy.AdmittedCounterFits | src/policy/exposure_store.cpp:166-176 | an admitted show leaves the 32-bit window counter at or below the limit, so its increment never wraps |
| Policy.FreshIsAdmitted | src/policy/exposure_store.cpp:152-182 | an item tracked for the first time always passes both limits, so tracking implies at least one show |
| Policy.ReserveKeepsInv | src/policy/exposure_store.cpp:132-182 | a reservation keeps the shard within its room, every tracked entry at one show or more and within its cap, and under fail-open the recency list a duplicate-free ordering of exactly the tracked ids |
| Policy.ForgetKeepsInv | src/policy/exposure_store.cpp:213-221 | forgetting an item keeps the same shard invariant |
| Policy.FullShardHasVictim | src/policy/exposure_store.cpp:120-130 | a full fail-open shard always has something to evict |
| Policy.CheckIsReserveDecision | src/policy/exposure_store.cpp:184-211 | the dry-run answer is the decision a reservation would get, and fail-open never answers StoreFull |
| SlidingWindow.AlignedBound | src/policy/exposure_store.cpp:81-106 | a log admitted by the estimate has at most `limit` shows in any aligned window |
| SlidingWindow.SpanBound | src/policy/exposure_store.cpp:81-106 | in any span of one window length: shows beyond the limit are paid for by the earlier window's shows times the offset of the last show, over the window |
| SlidingWindow.SpanWorstCase | src/policy/exposure_store.cpp:81-106 | no span of one window length holds more than the closed-form worst case |
| SlidingWindow.WhenTheLimitIsStrict | include/lrd/policy/policy.hpp:16-20 | the closed form of the worst case is the documented limit exactly for a window of 1 ms or limit * (window - 2) < window; otherwise it stays at or below 2 * limit - 1, and equals that once the window is at least 2 * limit ms |
| PolicyItems.FollowIsAdmitted | src/policy/exposure_store.cpp:81-106 | with attempts in the order of their timestamps, every show was let in by the estimate and the two counters are the true counts of their windows |
| PolicyItems.FollowCountsShows | src/policy/exposure_store.cpp:159-182 | shows equal the allowed attempts, and with the frequency limit off they are min(cap, attempts) |
| PolicyItems.WorstSchedule | src/policy/exposure_store.cpp:166-176 | two bursts around a window boundary put exactly min(worst case, lifetime cap) into one span, for every limit, window and cap |
| PolicyRuns.PerShardPositive | src/policy/exposure_store.cpp:28-43 | every accepted layout gives each shard room for at least one item, all shards together no more than configured, and less than one item per shard is lost to rounding |
| PolicyRuns.ApplyKeepsInv | src/policy/exposure_store.cpp:132-230 | every operation keeps every shard in good order and holding only ids routed to it |
| PolicyRuns.RunKeepsInv | src/policy/exposure_store.cpp:28-230 | every store reachable by any sequence of reserve, check, forget and clear satisfies the invariant |
| PolicyRuns.CheckAgreesWithReserve | src/policy/exposure_store.cpp:184-211 | in every reachable store, for every item and instant, check answers what reserve would |
| PolicyRuns.DecisionsSumToCalls | src/policy/exposure_store.cpp:132-182 | over any run the four decision counters add up to the reserve calls |
| PolicyRuns.TrackingIsBounded | src/policy/exposure_store.cpp:28-43 | no run tracks more items than max_tracked_items |
| PolicyRuns.AllowedIsTotalShows | src/policy/exposure_store.cpp:178-182 | fail-closed without resets, the allowed counter is the sum of the shows of all tracked items |
| PolicyRuns.ReserveClosed | src/policy/exposure_store.cpp:132-182 | fail-closed, a reservation touches no other item's entry and refuses a new item exactly when its shard is full |
| PolicyRuns.ItemsAreIndependent | src/policy/exposure_store.cpp:132-182 | fail-closed, a tracked item's counters and shows are a function of its own attempts alone, and a refusal for lack of room is for ever |
| PolicyRuns.LifetimeIsExact | src/policy/exposure_store.cpp:161-182 | fail-closed, with any timestamps: recorded shows are exactly the allowed attempts, never above the cap, and exactly min(cap, attempts) for a tracked item with frequency off |
| PolicyRuns.FrequencyGuarantee | src/policy/exposure_store.cpp:81-182 | fail-closed with attempts in the order of their timestamps, every item of every run stays within the aligned bound, the sliding bound and the exact worst case |
| PolicyRuns.WorstCaseIsReached | src/policy/exposure_store.cpp:81-182 | for every limit, window and cap a run reaches min(worst case, lifetime cap) within one window length |
| PolicyRuns.WhichBoundHolds | include/lrd/policy/policy.hpp:16-20 | fail-closed, over all runs in which the attempts on an item come in the order of their timestamps: a bound n holds of every span of every item exactly when min(worst case, lifetime cap) <= n |
| PolicyRuns.OutOfOrderHeapsUp | src/policy/exposure_store.cpp:95-100 | attempts at the two instants around a window boundary, in an order that goes back, put any number of shows the lifetime cap allows onto one instant |
| PolicyRuns.WhichBoundHoldsInAnyOrder | src/policy/exposure_store.cpp:81-106 | fail-closed, over all runs whatever the timestamps: a bound n holds of every span exactly when the lifetime cap is set and at most n |
| PolicyRuns.DocumentedLimitHoldsIff | include/lrd/policy/policy.hpp:16-20 | fail-closed, over all items and spans: at most `limit` shows per window length; for attempts in the order of their timestamps exactly when the closed-form worst case is the limit or the lifetime cap is set and within it, for attempts in any order exactly when the lifetime cap is set and within it |
| PolicyTracking.TenureIsIndependent | src/policy/exposure_store.cpp:120-230 | in either mode, after any operations, an item's counters and shows since it was last tracked are a function of its own attempts since then |
| PolicyTracking.TenureIsLatest | src/policy/exposure_store.cpp:120-182 | these are the latest of all its shows |
| PolicyTracking.LimitsHoldWhileTracked | src/policy/exposure_store.cpp:120-182 | in either mode: the shows since an item was last tracked are what its counter says, stay within the cap, and with attempts in the order of their timestamps within the window limits |
| PolicyTracking.NothingForgottenUntilEviction | src/policy/exposure_store.cpp:120-182 | until the eviction count moves, all shows of an item are on its record, so the cap is one for its lifetime under fail-open too |
| PolicyTracking.AllowedIsTrackedPlusForgotten | src/policy/exposure_store.cpp:120-230 | in either mode and with forget and clear, the allowed counter is the shows of all tracked items plus the shows that went with items dropped on the way |
| PolicyVerdicts.CountersAreVerdicts | src/policy/exposure_store.cpp:132-182 | over any run each of the four counters is the number of reservations that got its verdict |
| PolicyVerdicts.VerdictIsHistory | src/policy/exposure_store.cpp:81-211 | over any run every verdict by the history alone: StoreFull exactly for an untracked item and a full fail-closed shard; the cap exactly at that many shows since the item was last tracked; and for attempts in the order of their timestamps the window limit exactly when one more show would put the weighted count of the two aligned windows over it |
| PolicyVerdicts.LongestUnshownLeaves | src/policy/exposure_store.cpp:120-157 | fail-open, over any run: a new item that meets a full shard is let in, and the one item that leaves is the one of that shard whose last allowed attempt is the earliest; nothing else changes |
| PolicyVerdicts.NothingElseLeaves | src/policy/exposure_store.cpp:132-157 | a reservation that finds its item tracked, or room, or a fail-closed store, evicts nothing and keeps every other item as it is |
| PolicyVerdicts.TrackedMeansShown | src/policy/exposure_store.cpp:132-230 | a tracked item was allowed after it was last forgotten or cleared; fail-closed, those are exactly the tracked ones |
| PolicyVerdicts.ResetsDrop | src/policy/exposure_store.cpp:213-230 | forget and clear drop what they name and nothing else |
| PolicyVerdicts.RecencyIsHistory | src/policy/exposure_store.cpp:108-130 | fail-open, over any run every shard lists its items by their last allowed attempt, latest first |
| PolicyVerdicts.TrackedIsCount | src/policy/exposure_store.cpp:232-239 | over any run the reported size is the number of distinct items tracked |
| ExposureStores.ExposureStore.constructor | src/policy/exposure_store.cpp:28-43 | starts as the empty store of the run semantics, in good order |
| ExposureStores.ExposureStore.Create | src/policy/exposure_store.cpp:28-43 | construction succeeds exactly for a power-of-two shard count no larger than max_tracked_items |
| ExposureStores.ExposureStore.ShardFor | src/policy/exposure_store.cpp:45-51 | masking gives the one in-range shard of an id |
| ExposureStores.ExposureStore.AdvanceAndTest | src/policy/exposure_store.cpp:81-106 | rolls the two counters to the window of now, clock jumps included, and reports whether one more show would exceed the limit |
| ExposureStores.ExposureStore.TouchRecency | src/policy/exposure_store.cpp:108-118 | under fail-open moves or inserts the id at the front; under fail-closed changes nothing |
| ExposureStores.ExposureStore.EvictLast | src/policy/exposure_store.cpp:120-130 | removes the last item of the recency list from list, index and entries together and counts it, or reports that there is none; PolicyVerdicts.LongestUnshownLeaves says which item that is |
| ExposureStores.ExposureStore.EnsureTracked | src/policy/exposure_store.cpp:141-157 | tracks the id, evicting first if full and fail-open; false exactly when there is no room and nothing may be evicted |
| ExposureStores.ExposureStore.ChargeTracked | src/policy/exposure_store.cpp:159-182 | cap, then window, then charge: the tracked half of a reservation and its exact effect on the shard |
| ExposureStores.ExposureStore.ReserveInShard | src/policy/exposure_store.cpp:139-182 | the decision, new shard and eviction count of a whole reservation under the shard's lock |
| ExposureStores.ExposureStore.Reserve | src/policy/exposure_store.cpp:132-182 | one step of the run semantics: decision, shard, and exactly one of the four counters; the runs are what PolicyVerdicts.VerdictIsHistory and CountersAreVerdicts are about |
| ExposureStores.ExposureStore.Check | src/policy/exposure_store.cpp:184-211 | answers what Reserve would decide and changes nothing |
| ExposureStores.ExposureStore.Forget | src/policy/exposure_store.cpp:213-221 | one forget step of the run semantics |
| ExposureStores.ExposureStore.Clear | src/policy/exposure_store.cpp:223-230 | empties every shard and leaves the counters |
| ExposureStores.ExposureStore.TrackedItems | src/policy/exposure_store.cpp:232-239 | the sum of the shard sizes |
| Routing.RouteIsRemainder | include/lrd/cache/sharded_cache.hpp:176-178 | a key goes to the shard numbered by its hash modulo the shard count; keys share a shard exactly if these agree |
| Routing.MaskIsRemainder | include/lrd/cache/sharded_cache.hpp:176-178 | masking with a power of two minus one is the remainder, so every hash is routed to one shard in range |
| Lru.InclusionProperty | include/lrd/cache/lru_cache.hpp:110-158 | for any operations and capacities c1 <= c2 the small cache's recency list is a subsequence of the large one's with equal values, sizes differ by at most c2 - c1, and every small hit is the same large hit |
| Lru.ApplyIncluded | include/lrd/cache/lru_cache.hpp:202-233 | each single operation keeps the inclusion, an eviction in either cache included |
| LruHistory.ListIsHistory | include/lrd/cache/lru_cache.hpp:110-158 | after any operations the list is in order of last use and holds the values last put and not removed since |
| LruHistory.HitsAndVictims | include/lrd/cache/lru_cache.hpp:110-233 | over any run a hit is the last value put; a put leaves every resident key if its own is among them or there is room, and else removes exactly the resident key unused longest |
| LruHistory.OldestFirstIff | include/lrd/cache/lru_cache.hpp:165-177 | after any operations the scan is oldest first exactly when it has at most one entry |
| LruHistory.TwoEntriesNewestFirst | include/lrd/cache/lru_cache.hpp:165-177 | any two keys put into an empty cache are visited newest first |
| LruHistory.MetricsBalance | include/lrd/cache/lru_cache.hpp:110-233 | insertions = size + evictions + removals, hits + misses = gets, insertions + updates = puts, over any run |
| LruHistory.HitsAreFinds | include/lrd/cache/lru_cache.hpp:110-121 | over any run hits are the lookups that returned a value, misses the others |
| LruCaches.LruCache.constructor | include/lrd/cache/lru_cache.hpp:93-102 | empty, with the index and list in agreement |
| LruCaches.LruCache.Create | include/lrd/cache/lru_cache.hpp:93-102 | construction fails exactly for a capacity of zero |
| LruCaches.LruCache.Get | include/lrd/cache/lru_cache.hpp:110-121 | a hit moves the entry to the front and nothing else; a miss changes no entry; index and list stay in agreement |
| LruCaches.LruCache.Peek | include/lrd/cache/lru_cache.hpp:129-132 | the value Get would return, with no effect on recency |
| LruCaches.LruCache.Put | include/lrd/cache/lru_cache.hpp:202-223 | replaces in place and moves to the front, or evicts the last entry if full and inserts at the front; counters follow |
| LruCaches.LruCache.EvictLru | include/lrd/cache/lru_cache.hpp:225-233 | removes the last entry from list and index and counts it, or does nothing on an empty list |
| LruCaches.LruCache.Erase | include/lrd/cache/lru_cache.hpp:145-153 | removes exactly the key, from list and index, and says whether it was there |
| LruCaches.LruCache.Clear | include/lrd/cache/lru_cache.hpp:155-158 | empties list and index |
| LruCaches.LruCache.Size | include/lrd/cache/lru_cache.hpp:161-161 | the index size is the list length, within capacity |
| LruCaches.LruCache.Snapshot | include/lrd/cache/lru_cache.hpp:172-177 | visits the list most recently used first and disturbs nothing |
| Sharding.ShardApplyKeeps | include/lrd/cache/sharded_cache.hpp:106-111 | a routed operation keeps every shard distinct, within its capacity and holding only keys routed to it |
| Sharding.ScanIsDistinct | include/lrd/cache/sharded_cache.hpp:160-162 | a scan of all shards sees no key twice and no more entries than the capacity |
| Sharding.ScanFindsEach | include/lrd/cache/sharded_cache.hpp:160-178 | the scan finds for every key what the key's own shard holds |
| ShardedHistory.ShardIsItsOwnCache | include/lrd/cache/sharded_cache.hpp:103-117 | over any run shard i is a cache by itself over the operations that reach it |
| ShardedHistory.EveryShardTellsHistory | include/lrd/cache/sharded_cache.hpp:103-117 | over any run each shard's list is in the order in which all operations last used its keys, and holds the values they last put |
| ShardedHistory.HitsAreLastPuts | include/lrd/cache/sharded_cache.hpp:103-111 | whatever a sharded lookup finds after any operations is the value last put |
| ShardedHistory.ShardVictims | include/lrd/cache/sharded_cache.hpp:103-111 | over any run a put touches its own shard only, removes nothing from it while the key is resident or there is room, and else exactly the key of that shard that all operations left unused longest |
| ShardedHistory.TotalsBalance | include/lrd/cache/sharded_cache.hpp:132-144 | the counters summed over the shards: insertions = size + evictions + removals, hits + misses = gets, insertions + updates = puts, over any run |
| ShardedHistory.HitsAddUp | include/lrd/cache/sharded_cache.hpp:132-144 | the hits summed over the shards are the lookups of the whole cache that found their key, the misses the others, over any run |
| ShardedCaches.ShardedCache.constructor | include/lrd/cache/sharded_cache.hpp:84-101 | as many empty shards as asked for, each with its share of the capacity |
| ShardedCaches.ShardedCache.Create | include/lrd/cache/sharded_cache.hpp:84-101 | construction succeeds exactly for a power-of-two shard count no larger than the capacity |
| ShardedCaches.ShardedCache.ShardIndex | include/lrd/cache/sharded_cache.hpp:176-178 | the masked hash, always in range |
| ShardedCaches.ShardedCache.Get | include/lrd/cache/sharded_cache.hpp:106-106 | the operation on the key's shard and on no other |
| ShardedCaches.ShardedCache.Put | include/lrd/cache/sharded_cache.hpp:109-109 | the operation on the key's shard and on no other; one more eviction exactly for a new key in a full shard |
| ShardedCaches.ShardedCache.Erase | include/lrd/cache/sharded_cache.hpp:111-111 | the operation on the key's shard and on no other |
| ShardedCaches.ShardedCache.ScanAll | include/lrd/cache/sharded_cache.hpp:160-162 | every entry of every shard once, without changing any recency |
| ShardedCaches.ShardedCache.Size | include/lrd/cache/sharded_cache.hpp:121-127 | the number of entries a full scan sees |
| ShardedCaches.ShardedCache.Evictions | include/lrd/cache/sharded_cache.hpp:133-144 | the sum of the shards' eviction counts |
| Ranking.TopIsUnique | src/rank/scorer.cpp:74-82 | with ids that identify candidates there is only one selection of the best m |
| CandidateHeap.PushHeap | src/rank/scorer.cpp:99-104 | restores the heap order under the retrieval order, as a permutation |
| CandidateHeap.PopHeap | src/rank/scorer.cpp:114-117 | brings the weakest to the back and leaves a heap in front of it, as a permutation |
| Selectors.Admit | src/rank/scorer.cpp:99-121 | after any offer the shortlist is a heap holding exactly the best m of everything offered |
| Selectors.CandidateSelector.constructor | src/rank/scorer.cpp:64-72 | empty, with the limit count * max(overfetch, 1) |
| Selectors.CandidateSelector.Consider | src/rank/scorer.cpp:84-122 | keeps the shortlist the best m of all eligible candidates above the floor, and counts considered and eligible; HandlerSlates.RankerReadsFields and HandlerSelection.KeepsTheMostRelevant say in fields what eligible and best mean |
| Selectors.Increment | src/rank/scorer.cpp:146-155 | exactly one key's count goes up by one |
| Selectors.BestLeft | src/rank/scorer.cpp:165-192 | finds the untaken candidate with the best discounted score, the smaller id at a tie, or that none is left |
| Selectors.CandidateSelector.Select | src/rank/scorer.cpp:124-218 | the loop over taken flags and count vectors is the greedy re-rank: same slate, same final hook state |
| Rerank.PickIsBest | src/rank/scorer.cpp:165-192 | no remaining candidate beats the round's winner |
| Rerank.GreedyIsGreedy | src/rank/scorer.cpp:157-215 | every offer is the best of what was left given what was already taken, none is offered twice, at most count are taken, and the slate is short only if the whole shortlist was offered |
| Rerank.ScoresDescend | src/rank/scorer.cpp:171-215 | when discounts only shrink scores, offered and returned scores never rise |
| Rerank.RerankGuarantee | src/rank/scorer.cpp:124-218 | all of the above for one whole re-rank, for every hook |
| Rerank.OrderIsIrrelevant | src/rank/scorer.cpp:185-191 | the order of the shortlist changes neither slate nor hook state |
| RankTheorems.OfferOrderIsIrrelevant | src/rank/scorer.cpp:84-218 | any permutation of the items considered gives the same offers to the hook, the same slate and the same final state |
| RankTheorems.SlateIsSortPrefix | src/rank/scorer.cpp:64-218 | with repeat factors 1 and nothing refused, the returned scores are the first count values of the descending sort of all eligible relevances |
| BestFirst.BestFirstIffSafe | include/lrd/rank/scorer.hpp:133-134 | "best first" holds for all items the daemon can hold, every signal, instant and count, exactly when both factors are 1, or both lie in [0, 1] and min_score is not negative |
| BestFirst.UnsafeFactorBreaksOrder | include/lrd/rank/scorer.hpp:133-134 | for every other configuration: three items with non-empty categories and distinct ids, and a signal, whose shortlist is slated out of order |
| Wire.UintRoundTrip | src/proto/wire.cpp:20-36 | parsing what was written gives the value and the untouched tail |
| Wire.UintExact | src/proto/wire.cpp:29-36 | what was parsed is what would be written |
| Wire.TextRoundTrip | src/proto/wire.cpp:64-68 | a string whose length fits 32 bits is read back with the tail untouched |
| Wire.TextExact | src/proto/wire.cpp:130-147 | an accepted string is exactly its length and bytes, and never longer than the input |
| WireObjects.AppendBigEndian | src/proto/wire.cpp:20-27 | the shift loop appends the big-endian bytes |
| WireObjects.LoadBigEndian | src/proto/wire.cpp:29-36 | the loop reads the big-endian value |
| WireObjects.ByteWriter.Uint | src/proto/wire.cpp:44-58 | appends, keeping everything already in the buffer |
| WireObjects.ByteWriter.String | src/proto/wire.cpp:64-68 | appends the 32-bit length and the bytes |
| WireObjects.ByteReader.Need | src/proto/wire.cpp:74-83 | fails for good at the first read past the end |
| WireObjects.ByteReader.Uint | src/proto/wire.cpp:85-119 | in step with the parser, or failed for good with a zero |
| WireObjects.ByteReader.String | src/proto/wire.cpp:130-147 | in step with the parser, or failed for good with an empty string |
| WireFormat.BytesAreBigEndian | src/proto/wire.cpp:20-36 | byte i of an n-byte number is its value divided by 256 to the power n - 1 - i, modulo 256 |
| WireFormat.RequestOnWire | src/proto/codec.cpp:155-216 | every encoded request is, field by field and in the order of a plain table: magic, version 3, type byte, flags, id, then the fields of its kind |
| WireFormat.ResponseOnWire | src/proto/codec.cpp:218-269 | the same for responses, the fifteen statistics and the entries of a slate included |
| Codec.HeaderByOffset | src/proto/codec.cpp:163-194 | the header decoder agrees with a reading by byte offsets: which fault is reported first, and what a good header says |
| Codec.HeaderRoundTrip | src/proto/codec.cpp:155-194 | an encoded header decodes to its type and id |
| Codec.RequestRoundTrip | src/proto/codec.cpp:200-330 | for every request whose lengths fit 32 bits: itself if all limits hold, otherwise FieldTooLarge with the id kept |
| Codec.ResponseRoundTrip | src/proto/codec.cpp:218-430 | the same for responses; the item of an unsuccessful GetItem answer comes back as the default |
| Codec.RequestsArePrefixFree | src/proto/codec.cpp:123-131 | any bytes added to an accepted body make it TrailingBytes, so no accepted body is a strict prefix of another |
| Codec.ResponsesArePrefixFree | src/proto/codec.cpp:123-131 | the same for responses |
| Codec.TruncatedRequestIsRejected | src/proto/codec.cpp:275-330 | an accepted body cut at any offset is rejected |
| Truncation.CutRequestIsTruncated | src/proto/codec.cpp:163-330 | an accepted request cut at any offset is reported as Truncated and as nothing else, under its id as soon as the header is whole |
| Truncation.CutResponseIsTruncated | src/proto/codec.cpp:163-430 | the same for responses |
| Truncation.WrongWayIsRecognised | src/proto/codec.cpp:281-283 | an encoded response read as a request is WrongDirection, and the other way round |
| Codec.RequestsAreNearlyCanonical | src/proto/codec.cpp:200-330 | re-encoding an accepted body gives the same bytes, except that a non-zero dry-run byte becomes 1 |
| Codec.ResponsesAreCanonical | src/proto/codec.cpp:218-430 | re-encoding an accepted response gives the same bytes |
| Codec.MeaningIsUnique | src/proto/codec.cpp:275-330 | two accepted bodies with the same meaning differ at most in a non-zero dry-run byte |
| Fields.SignalRoundTrip | src/proto/codec.cpp:63-111 | a user signal is read back, or refused exactly when a count or a category is over its limit |
| Fields.SignalLaws | src/proto/codec.cpp:82-111 | an accepted signal is within the limits and is exactly its bytes |
| Fields.ItemRoundTrip | src/proto/codec.cpp:35-56 | an item is read back, negative timestamps included |
| Fields.ItemLaws | src/proto/codec.cpp:47-56 | a parsed item is exactly its bytes, and more input changes only the rest |
| Fields.RankedListRoundTrip | src/proto/codec.cpp:113-118 | a slate is read back entry by entry |
| BinaryCodecs.WriteItem | src/proto/codec.cpp:35-42 | appends the item's encoding |
| BinaryCodecs.WriteSignal | src/proto/codec.cpp:63-73 | appends both counted lists |
| BinaryCodecs.WriteRanked | src/proto/codec.cpp:113-118 | appends the entry's encoding |
| BinaryCodecs.EncodeHeader | src/proto/codec.cpp:155-161 | appends magic, version, type, flags and id |
| BinaryCodecs.Encode | src/proto/codec.cpp:200-216 | appends the request's encoding to any buffer and leaves what was there |
| BinaryCodecs.EncodeReply | src/proto/codec.cpp:218-269 | appends the response's encoding to any buffer and leaves what was there |
| BinaryCodecs.ReadItem | src/proto/codec.cpp:47-56 | in step with the parser, or failed for good |
| BinaryCodecs.ReadSignal | src/proto/codec.cpp:82-111 | distinguishes too large from cut short, and never loops past a bounded count |
| BinaryCodecs.DecodeHeader | src/proto/codec.cpp:163-194 | the header, or the first fault in the order of the checks |
| BinaryCodecs.Finish | src/proto/codec.cpp:123-131 | a failed reader is Truncated, an unfinished one TrailingBytes |
| BinaryCodecs.Decode | src/proto/codec.cpp:275-330 | the loop decoder is the decoding function on every byte string |
| BinaryCodecs.DecodeReply | src/proto/codec.cpp:332-430 | the loop decoder is the decoding function on every byte string |
| Frames.CutStream | src/proto/framing.cpp:59-99 | cutting any stream of frames at any offset leaves exactly the frames wholly within it, in order, then the end on a boundary and a partial frame anywhere else |
| Frames.StreamRoundTrip | src/proto/framing.cpp:59-148 | what was sent and closed is read in full |
| Frames.BadLengthEndsStream | src/proto/framing.cpp:59-99 | behind any good frames a length of zero or above 1 MiB is found and named, whatever follows it, and ends the reading |
| Frames.SplitIsPrefix | src/proto/framing.cpp:59-99 | of any bytes at all, the frames read are what the front of the stream says: none invented, reordered or skipped |
| Streams.UnixStream.ReadExact | src/net/io.cpp:26-78 | the bytes taken off the stream are those in the buffer, in order, for any kernel answers; short reads and signals stop it only at the end of the stream; a timeout or error is the kernel's last answer |
| Streams.UnixStream.WriteAll | src/net/io.cpp:107-160 | what went out is a prefix of the buffer, all of it exactly when Ok; a broken pipe, timeout or error is the kernel's last answer |
| Streams.UnixStream.ReadFrame | src/proto/framing.cpp:20-99 | the frame at the head of the stream, or the reason there is none; the buffer is never larger than 1 MiB; short reads and signals do not show |
| Streams.UnixStream.WriteFrame | src/proto/framing.cpp:126-148 | refuses exactly the empty and the oversized body before writing; for any kernel answers a first part of the frame goes out, and the whole of it exactly when Ok |
| Streams.UnixStream.WritePrefixed | src/proto/framing.cpp:103-122 | patches the length in place and leaves the body; what goes out is a first part of the frame, the whole of it exactly when Ok |
| Streams.UnixStream.ReadAll | src/proto/framing.cpp:59-99 | under short reads and signals alone all frames of the stream and the right ending; under any answers the first of them |
| Streams.Deliver | src/proto/framing.cpp:59-148 | every body through either writer, chosen body by body, the stream cut anywhere, the rest through a reader, with any benign answers on both sides: exactly the whole frames, then PeerClosed on a boundary and Truncated otherwise |
| ThreadPool.NoLostWakeup | src/concurrency/thread_pool.cpp:57-83 | over all interleavings, with a task queued and every notification delivered some worker is awake; none sleeps while tasks outnumber the wake-ups on the way |
| ThreadPool.ExactlyOnce | src/concurrency/thread_pool.cpp:57-160 | each accepted task is in exactly one of queued, in flight, completed, threw, discarded; counters add up; tasks start in order; the queue stays within its bound |
| PoolHistory.CountersAreSteps | src/concurrency/thread_pool.cpp:57-160 | along any schedule completed and exceptions go up by the tasks that returned and threw, and the pool refuses work from the first shutdown call on |
| PoolHistory.AcceptedIff | src/concurrency/thread_pool.cpp:57-83 | after any schedule a post is taken exactly if nobody has called shutdown and fewer than `bound` accepted tasks wait to start; it goes behind all accepted before it |
| PoolHistory.WorkersLeaveIff | src/concurrency/thread_pool.cpp:116-139 | after any schedule a worker that looks exits exactly if the pool is stopping and nothing waits, sleeps exactly if it is open and nothing waits, and otherwise starts the oldest task waiting |
| PoolHistory.JoinedCounters | src/concurrency/thread_pool.cpp:85-160 | in a joined pool posted + rejected is the number of posts, and posted = completed + exceptions + discarded |
| ThreadPool.JoinedMeansAllRan | src/concurrency/thread_pool.cpp:85-114 | once the first shutdown has joined every worker is gone and everything not discarded has run exactly once; if no call asked to discard, that is every accepted task |
| ThreadPool.DrainDiscardsNothing | src/concurrency/thread_pool.cpp:95-100 | a schedule without a discarding shutdown discards nothing |
| ThreadPool.ShutdownIsBounded | src/concurrency/thread_pool.cpp:103-114 | from the moment stopping is flagged, any schedule at all, racing posts and shutdown calls included, holds a bounded number of worker steps |
| ThreadPool.ShutdownCompletes | src/concurrency/thread_pool.cpp:103-160 | wherever a stopping pool has got to, it can go on until all workers have exited and the join returns |
| ThreadPool.ShutdownJoinsIff | include/lrd/concurrency/thread_pool.hpp:119-121 | in every reachable pool: a shutdown call returns to a pool without workers, however the others run, exactly when it finds the pool open or the workers already gone; and every call can return |
| ThreadPool.LaterShutdownDoesNotJoin | include/lrd/concurrency/thread_pool.hpp:119-121 | in a pool of any size a second shutdown call can return with a task still running |
| ThreadPool.StepKeepsWakeups | src/concurrency/thread_pool.cpp:57-160 | every step keeps the wake-up invariant, spurious wake-ups included |
| ThreadPoolObjects.TaskQueue.constructor | src/concurrency/thread_pool.cpp:22-51 | an open pool with nothing queued |
| ThreadPoolObjects.TaskQueue.Create | src/concurrency/thread_pool.cpp:22-31 | construction fails exactly for no threads or no room in the queue |
| ThreadPoolObjects.TaskQueue.Post | src/concurrency/thread_pool.cpp:57-83 | one post step of the system: shutting down before full, both before accepted |
| ThreadPoolObjects.TaskQueue.Take | src/concurrency/thread_pool.cpp:116-139 | one look at the queue: sleep only if open and empty, exit only if stopping and empty, otherwise the oldest task |
| ThreadPoolObjects.TaskQueue.Finished | src/concurrency/thread_pool.cpp:141-159 | exactly one of completed and exceptions is counted |
| ThreadPoolObjects.TaskQueue.BeginShutdown | src/concurrency/thread_pool.cpp:85-101 | only the first caller goes on; Discard empties the queue, Drain keeps it |
| Shutdown.StepKeepsOwned | src/daemon/server.cpp:155-333 | every step keeps each open connection the owner of its descriptor number, although the kernel reuses numbers |
| Shutdown.StepKeepsRegistered | include/lrd/daemon/connection_registry.hpp:68-89 | every step keeps the registry exactly the registered connections with their own descriptors |
| Shutdown.SweepTouchesItsOwn | src/daemon/connection_registry.cpp:22-37 | the descriptor stop_all shuts down is open and names the very connection registered under the token |
| Shutdown.StepKeepsPhased | src/daemon/server.cpp:232-255 | every step keeps what shutdown has achieved so far, the brokenness of swept connections included |
| ShutdownRuns.Accounting | src/daemon/server.cpp:155-176 | in every reachable state accepted = rejected + in hand, queued or starting + live + completed + abandoned + discarded |
| ShutdownOutcomes.OutcomesTell | src/daemon/server.cpp:155-333 | in every reachable state the place of each connection is the one its own steps give it: refused by the pool, discarded by its shutdown, or taken, registered, deregistered and closed |
| ShutdownOutcomes.AbandonedIffLate | src/daemon/server.cpp:257-333 | a worker gives up a connection unserved exactly if it came to register it after stop_all had begun |
| ShutdownOutcomes.BrokenIffSwept | src/daemon/connection_registry.cpp:22-37 | a connection is cut off exactly if stop_all found it registered; nothing else ever is |
| ShutdownOutcomes.CountersAreSteps | src/daemon/server.cpp:155-333 | accepted, rejected and completed are the connections accepted, the ones the pool refused, and the sessions that came to an end |
| ShutdownRuns.SweepIsSafe | src/daemon/connection_registry.cpp:22-37 | in every reachable state of stop_all the next descriptor is open and owned by the registered connection |
| ShutdownRuns.NothingRegistersAfter | src/daemon/connection_registry.cpp:7-15 | from any reachable state that is stopping, over any run: nothing is accepted, no connection registers, the registry only shrinks, and what is broken stays broken |
| ShutdownRuns.AllBrokenAfterSweep | src/daemon/server.cpp:240-245 | once stop_all has returned every registered connection is broken |
| ShutdownRuns.JoinedMeansClosed | src/daemon/server.cpp:232-255 | when run is over every connection is closed, no descriptor of one is left open, and the counters say what became of each |
| ShutdownRuns.StepsRunOut | src/daemon/server.cpp:247-333 | after stop_all every step of the server or a worker brings the end nearer |
| ShutdownRuns.NeverStuck | src/daemon/server.cpp:247-333 | until the end there always is such a step |
| ShutdownRuns.ShutdownIsBounded | src/daemon/server.cpp:232-333 | after stop_all any run, other files of the process opening and closing included, holds a bounded number of steps of the server and its workers |
| ShutdownRuns.ShutdownCanEnd | src/daemon/server.cpp:232-333 | and wherever it has got to it can go on until run is over |
| ConnectionRegistries.ConnectionRegistry.constructor | include/lrd/daemon/connection_registry.hpp:59-63 | empty, first token one, not stopping |
| ConnectionRegistries.ConnectionRegistry.Add | src/daemon/connection_registry.cpp:7-15 | a fresh non-zero token, or zero and no change exactly when stopping |
| ConnectionRegistries.ConnectionRegistry.Remove | src/daemon/connection_registry.cpp:17-20 | exactly the token goes |
| ConnectionRegistries.ConnectionRegistry.StopAll | src/daemon/connection_registry.cpp:22-37 | latches, and visits every registered token exactly once |
| SdkRuns.StepKeepsBounded | src/sdk/client.cpp:107-135 | every step keeps total = idle + checked out or opening, within the maximum |
| SdkRuns.StepKeepsPlaced | src/sdk/client.cpp:187-267 | every step keeps each connection with at most one holder and never both held and idle |
| SdkRuns.WireStepKeepsWired | src/client/connection.cpp:40-87 | every read and write keeps each call in step with its own wire and disturbs no other call |
| SdkTheorems.PoolIsBounded | src/sdk/client.cpp:187-267 | in every interleaving the pool's count is exact and within max_connections |
| SdkTheorems.ConnectionsAreExclusive | src/sdk/client.cpp:98-135 | no two calls share a connection and none holds an idle one |
| SdkTheorems.IdleIsQuiet | src/sdk/client.cpp:98-135 | every idle connection is open, owes no reply and has no half frame on it |
| SdkTheorems.AnswersMatch | src/client/connection.cpp:40-87 | every answer a call reports is the daemon's reply to that very request, and success is never reported without one |
| SdkTheorems.IdsAlwaysMatch | src/client/connection.cpp:69-77 | the next reply on a wire is always the one being waited for, so the id check never fires against a daemon that echoes ids |
| SdkTheorems.AtMostOnce | src/sdk/client.cpp:187-298 | over all connections ever used, a recording recommendation reaches the daemon at most once by default and any call at most max_retries + 1 times |
| SdkTheorems.SuccessWasDelivered | src/sdk/client.cpp:240-246 | a call that succeeded was received |
| SdkTheorems.StatusesStayApart | src/sdk/client.cpp:38-57 | the mapping of outcomes loses nothing, outcome by outcome; only a lost connection is retried, only a lost or senseless one is dropped |
| SdkOutcomes.CodesTellTheAnswer | src/sdk/client.cpp:38-48 | in every interleaving a finished call that got an answer reports Ok, NotFound, InvalidArgument or Internal exactly when the daemon said fine, missing, refused or broken to that very request, and ProtocolError otherwise; without an answer it is Unavailable, or InvalidArgument by the client itself |
| SdkOutcomes.GivesUpLate | src/sdk/client.cpp:187-267 | a call reports Unavailable only after all its attempts: one for a recording recommendation unless its retry was asked for, max_retries + 1 for everything else |
| SdkOutcomes.IdsAreConsecutive | src/client/connection.cpp:116-118 | the requests on a connection carry the ids 1, 2, 3 and so on |
| SdkOutcomes.GoesBackIff | src/sdk/client.cpp:112-122 | a connection goes back to the front of the idle list exactly when the reply made sense or nothing was sent; otherwise it is dropped and its slot freed |
| SdkOutcomes.TakesTheLatest | src/sdk/client.cpp:205-226 | a call takes the idle connection given back last; with none idle it opens one exactly when there is room |
| SdkTheorems.CallsCanMove | src/sdk/client.cpp:187-267 | an unfinished call always has a step of its own |
| ClientWaiting.StepKeeps | src/sdk/client.cpp:112-122 | every step keeps the pool's count and the wake-up invariant; what is given back comes with one wake-up |
| ClientWaiting.NobodySleepsBesideAConnection | src/sdk/client.cpp:205-237 | no lost wake-up, over all interleavings with expiry and spurious wake-ups: no caller sleeps while more connections are to be had than callers are on their way to look |
| ClientWaiting.SleepersWaitForSomeone | src/sdk/client.cpp:205-237 | whoever sleeps waits for someone who is about to look, or has a connection to give back |
| Connections.Connection.constructor | src/client/connection.cpp:23-29 | open, on the given stream |
| Connections.Connection.Call | src/client/connection.cpp:40-87 | stays open exactly when a well-formed reply under the request's id came back; then one frame went out, one came in, and the status says what the reply says; a lost call has sent a first part of its frame, or all of it; with benign answers the reply at the head of the stream is the one returned |
| Connections.Connection.Perform | src/client/connection.cpp:101-214 | the typed calls: what is refused locally sends nothing and uses no id; otherwise status and fate of the connection are what the step system makes of the reply frame, unexpected types and not-found included |
| Connections.WriteMessage | include/lrd/proto/framing.hpp:97-104 | for any kernel answers a first part of the frame holding the request's encoding, the whole of it exactly when Ok; nothing if it does not fit |
| ClientPools.ClientPool.constructor | src/sdk/client.cpp:146-174 | the state every run of the client starts from |
| ClientPools.ClientPool.Connect | src/sdk/client.cpp:146-174 | a client comes of it exactly when one connection is within its bound and the first could be made, and then it stands at the start of the runs all client theorems are about; only an unreachable daemon is worth a retry, a zero maximum and an unknown codec are invalid arguments |
| ClientPools.ClientPool.TryAcquire | src/sdk/client.cpp:205-226 | an idle connection, a slot or neither, never above the maximum |
| ClientPools.ClientPool.ReturnSlot | src/sdk/client.cpp:231-237 | gives a reserved slot back |
| ClientPools.ClientPool.Return | src/sdk/client.cpp:112-122 | healthy connections go to the front of the idle list, others are dropped and free their slot |
| ClientPools.ClientPool.Invoke | src/sdk/client.cpp:187-267 | wherever earlier calls have left the pool, the retry loop takes one thread of the step system from beginning to end and leaves the others alone; it stops at the first outcome not worth retrying, and sends at most once per attempt |
| ClientPools.ClientPool.Attempt | src/sdk/client.cpp:203-255 | one attempt is a run of the step system: acquire, open or give the slot back, exchange, put back or drop |
| ClientSteps.Exchanges | src/client/connection.cpp:40-87 | every way an exchange can go is a run of the step system to the release of the connection, with the status the code returns |
| Conversations.Converse | src/client/connection.cpp:40-87 | calls one after the other on one connection against the daemon's loop, short transfers and signals anywhere on either side: each end receives what the other sent, and every call returns the handler's own response to that request, each from the state the one before it left |
| Preview.ReservedEffect | src/policy/exposure_store.cpp:132-182 | one recorded show changes only its own item, tracks it exactly when new and there is room, and is allowed exactly when check says so |
| Preview.DryRunRecordsNothing | src/daemon/handler.cpp:142-149 | a dry run leaves the compliance store as it was |
| Preview.LiveChargesWhatItReturns | src/daemon/handler.cpp:132-149 | fail-closed, a recording slate charges each returned id once and nothing else |
| Preview.PreviewIsLiveIff | src/daemon/handler.cpp:132-149 | fail-closed, from the same state and instant, the recording slate equals the preview exactly when every policy shard has room for the previewed items new to it |
| Preview.RoomMakesPreviewLive | src/daemon/handler.cpp:132-149 | enough: each shard has room for its untracked shortlisted ids, or for none at all |
| Preview.PartialRoomBreaksPreview | src/daemon/handler.cpp:132-149 | a store with one free slot and any two items to show: the slates differ |
| OpenPreview.OpenPreviewIsLiveIff | src/daemon/handler.cpp:132-149 | fail-open, from the same state and instant, the recording slate equals the preview exactly when it shows nothing that was over its limits when the request came in |
| OpenPreview.SparedMakesPreviewLive | src/daemon/handler.cpp:132-149 | fail-open, enough: the recording run evicts no item it has yet to offer |
| OpenPreview.EvictionBreaksPreview | src/policy/exposure_store.cpp:120-182 | a fail-open store with one slot and a cap of one: recording a better item evicts the one just refused, which is then shown again |
| HandlerTheorems.CacheOpKeepsInv | src/daemon/handler.cpp:54-101 | cache operations keep stored items under their own ids and within the wire limits |
| HandlerTheorems.SlateIsPresentable | src/daemon/handler.cpp:103-150 | whatever the hook does, a slate has at most count entries, each made of a stored item the ranker calls eligible and above the floor; HandlerSlates.RepliesShowLastPublished says what that means in the fields of the item |
| HandlerSlates.RankerReadsFields | src/rank/scorer.cpp:23-58 | eligible means a positive score, no expiry or a later one, and a category not excluded; relevance is score times the weight of the first affinity entry for the category, or the default, times the decay of the age, which is never below zero |
| HandlerSlates.RepliesShowLastPublished | src/daemon/handler.cpp:103-150 | over any run a recommendation in range is answered Ok with no more entries than asked for, and every entry carries id, category and advertiser of the item last published under that id, which is switched on, not expired and not excluded, and the bits of its relevance discounted once per earlier entry of the same category and of the same advertiser |
| HandlerSlates.PlainScore | src/rank/scorer.cpp:52-58 | with both repeat factors 1 the score of an entry is the relevance of its item |
| HandlerSelection.NothingOverlooked | src/daemon/handler.cpp:103-150 | over any run, if a recommendation comes back short and no more items qualified than are re-ranked, the compliance store was asked about every one of them |
| HandlerSelection.KeepsTheMostRelevant | src/rank/scorer.cpp:74-122 | nothing left out of the shortlist is more relevant than anything in it; among equals the larger ids are kept |
| HandlerSelection.OffersTheHighest | src/rank/scorer.cpp:157-215 | every offer has the highest discounted score of what is left, and among equals the smallest id |
| HandlerSelection.PlainReplyIsSorted | src/rank/scorer.cpp:157-215 | with both repeat factors 1 a slate is sorted by score and at equal scores by id, whatever the store refuses in between |
| HandlerSelection.ReturnedIsAllowed | src/daemon/handler.cpp:132-150 | over any run a recommendation returns exactly those of its offers that the store, after everything asked of it before, allows |
| Replies.PutRefusals | src/daemon/handler.cpp:72-90 | a put is refused exactly for a zero id and then for an empty category, with status 2 and the text that says which; else the answer is Ok |
| Replies.RecommendRefusals | src/daemon/handler.cpp:103-113 | a recommendation is refused exactly for a count of zero or above 100, with status 2 and the text that says which, the count in decimal included |
| Replies.RepliesSayWhatHappened | src/daemon/handler.cpp:32-150 | to the client every reply says missing exactly for a get or delete of an item not held, refused exactly for a bad put or count, and otherwise fine; the status byte is 1, 2 or 0 accordingly |
| Replies.TooLargeIsRefused | src/daemon/server.cpp:290-321 | a request with a field over its limit is answered under its id with status 2 and that text, which the client reads as refused |
| Replies.LocalRefusalsAreTheDaemons | src/client/connection.cpp:101-214 | what the client refuses by itself the daemon would have refused |
| Replies.TheRestIsTheDaemons | src/client/connection.cpp:101-214 | what it lets through the daemon refuses only for a zero id, an empty category or a signal over the limits |
| Delivery.DeliverableIsDelivered | src/proto/codec.cpp:218-430 | such a reply is at most 15,221 bytes and decodes to itself |
| Delivery.AcceptedIsWithinLimits | src/proto/codec.cpp:275-330 | what the decoder accepts is within the limits |
| Delivery.HandlesKeeps | src/daemon/handler.cpp:32-150 | any request within the limits leaves the handler in good order and gets a deliverable reply |
| Delivery.EveryReplyIsDelivered | src/daemon/handler.cpp:32-150 | from an empty store and after any accepted requests, every reply fits a frame and the client decodes it as sent, under the request's id |
| HandlerRuns.LifetimeCapHolds | src/daemon/handler.cpp:92-150 | fail-closed, over any run with publishing, deleting and republishing, the store's count of an item is how often recording requests returned it, and never above the cap; for requests one at a time |
| Interleaving.StoreIsSerial | src/policy/exposure_store.cpp:132-211 | over every interleaving the store is what the same operations give one at a time |
| Interleaving.CapsHoldConcurrently | src/daemon/handler.cpp:132-150 | fail-closed, over every interleaving of any number of recommendations: what they have taken of an item is what the store has on record, never above the cap; and if the store was consulted about it in the order of the timestamps, within the window limits |
| Interleaving.OverlapHeapsUp | src/daemon/handler.cpp:115-150 | the failing interleaving, for every limit and window: recommendations started in order and consulting out of it put any number of shows the cap allows within one window length |
| Interleaving.WhichBoundHoldsOverlapping | src/daemon/handler.cpp:115-150 | over every interleaving under a clock that never goes back: a bound on the shows per window length holds exactly when the lifetime cap is set and within it |
| Interleaving.LimitsHoldOneAtATime | src/daemon/handler.cpp:115-150 | one recommendation at a time and a clock that does not go back: the window limits hold |
| Interleaving.EverySlateIsGreedy | src/daemon/handler.cpp:132-150 | whatever other recommendations do to the store in between, each one's offers are greedy over its own shortlist and it takes no more than asked for |
| Interleaving.AloneIsGreedy | src/daemon/handler.cpp:132-150 | a recommendation that nothing interrupts ends with the slate and store of the undisturbed re-rank |
| HandlerRuns.PreviewAgreesIff | src/daemon/handler.cpp:103-150 | the same recommendation as dry run and as recording request, whatever the heap looked like: equal slates, and equal replies, exactly when the store has room; the dry run records nothing |
| HandlerRuns.GetAfterPutOrDelete | src/daemon/handler.cpp:54-101 | an item just published is found as it was; one just deleted is not found and cannot be deleted again |
| HandlerHistory.CountersBalance | src/daemon/handler.cpp:32-70 | over any run every request is counted once, under its kind, hits are the gets answered with an item, and the kinds add up to the requests |
| HandlerHistory.CacheIsHistory | src/daemon/handler.cpp:54-101 | over any run the cache behind the handler, evictions included, is the sharded cache of the requests served |
| HandlerHistory.GetReturnsLastPublished | src/daemon/handler.cpp:54-70 | an item a get returns is the one last published under that id and not deleted since |
| HandlerHistory.AllowedIsReturned | src/daemon/handler.cpp:132-150 | in either mode the allowed counter is the number of items recording requests have returned |
| HandlerPolicy.StoreIsHistory | src/daemon/handler.cpp:132-149 | over any run the store is the run of the consultations made: a reservation for every offer of a recording recommendation, a check for every offer of a dry run, and nothing else |
| HandlerHistory.PolicyIsExact | src/daemon/handler.cpp:167-172 | over any run the four verdict counters are the consultations with each verdict, and tracked is the number of items tracked |
| HandlerHistory.StatsTellTheRun | src/daemon/handler.cpp:152-226 | a stats reply holds the counts of all requests up to itself and of the consultations by verdict, behavioural ones through the noise; allowed is also the number of items returned for the record; tracked is the number of distinct items tracked; entries = insertions - evictions - removals, within the capacity |
| Handlers.Handler.constructor | src/daemon/handler.cpp:23-30 | the empty handler |
| Handlers.Handler.Create | src/daemon/handler.cpp:23-30 | construction succeeds exactly for a power-of-two shard count that neither the cache capacity nor max_tracked_items is below |
| Handlers.Handler.OnGet | src/daemon/handler.cpp:54-70 | a lookup that counts as a use, and its answer |
| Handlers.Handler.OnPut | src/daemon/handler.cpp:72-90 | refuses a zero id and then an empty category; otherwise stores under the item's id; Replies.PutRefusals spells out the reply |
| Handlers.Handler.OnDelete | src/daemon/handler.cpp:92-101 | erases from the cache and leaves the compliance store alone |
| Handlers.Handler.Retrieve | src/daemon/handler.cpp:115-130 | a selector that was offered every item of every shard, in scan order |
| Handlers.Handler.OnRecommend | src/daemon/handler.cpp:103-150 | a re-rank of some best-m shortlist of the whole cache through the hook, and the new store; HandlerSlates.RepliesShowLastPublished and Replies.RecommendRefusals spell out the reply |
| Handlers.Handler.Dispatch | src/daemon/handler.cpp:41-49 | each kind of request goes to its operation, and only a recommendation returns a slate |
| Handlers.Handler.Handle | src/daemon/handler.cpp:32-52 | one step of the handler's semantics under the request's id |
| Sessions.ExchangeIsGood | src/daemon/server.cpp:290-326 | an answered or refused frame leaves the handler in good order, and its reply can be delivered and decoded |
| Sessions.TooLargeHasId | src/proto/codec.cpp:281-286 | FieldTooLarge is only reported after the header gave the id |
| ServerSessions.WriteReply | include/lrd/proto/framing.hpp:97-104 | for any kernel answers a first part of the frame holding the response's encoding, the whole of it exactly when Ok; nothing if it does not fit |
| ServerSessions.Answer | src/daemon/server.cpp:290-321 | answers exactly the recoverable frames; a frame beyond recovery changes nothing |
| ServerSessions.Serve | src/daemon/server.cpp:257-333 | for any kernel answers: the exchanges are with the first frames in order, each from the state the last one left; what was sent is their replies, all but perhaps the last in full; served counts the requests handled and answered in full; with benign answers every frame up to the first beyond recovery is answered and every answer sent |

## Left out

- The protobuf codec: its serialisation is generated library code that the repository does not hold.
- The Laplace noise on exported counters: a random source and floating-point logarithms; it is an arbitrary function here.
- Rounding of doubles, NaN and infinities in scores and in the window estimate, and `std::exp` and `std::pow`: exact reals and integers stand for them.
- Sockets, polling, signals, the stop pipe, socket files and their permissions: foreign calls, of which only the outcomes seen by the loops are kept.
- How well `hash_mix` spreads keys: only that it is a function matters to the theorems.
- Atomics ordering, and the approximate totals that counters and sizes give while other threads work.
- Durations: back-off and timeouts are kept as the outcomes "timed out" and "try again". In SdkClient a call that finds no connection fails at once; the wait before that, with its expiry, is in ClientWaiting.
- Fail-open runs, for the lifetime and frequency theorems beyond an eviction: eviction forgets counters by design. What holds from one eviction of an item to the next is in PolicyTracking.
- Cache operations in the middle of a recommendation: in the runs of the whole handler a recommendation is one step over one state, so a scan that sees shards at different instants is not modelled there. The limits do not depend on it: Interleaving lets every recommendation re-rank any shortlist whatever.
- The destructors of server and pool, which repeat `stop_all` and shutdown, and `submit` with its futures.
- Shared ownership of cached values: a value handed out is a copy here.
- Command line, daemon arguments, logging, benchmarks and examples: no property of interest.
- ClientPools.ClientPool.Invoke: nobody else runs during the call; what other threads do between its critical sections is in the step system of SdkClient, of which it is shown to be one thread.
- Interleaving.CapsHoldConcurrently: its window half is for consultations in the order of their timestamps; without that order it is false, and Interleaving.WhichBoundHoldsOverlapping says what remains.
- HandlerRuns.LifetimeCapHolds: requests one at a time; recommendations at the same time are in Interleaving.CapsHoldConcurrently.
- Handlers.Handler.OnRecommend: the compliance store is a value that the hook threads through the re-rank; ExposureStores.ExposureStore is the same store updated in place, and the two are tied to the same functions.
- Streams.UnixStream.ReadFrame: the reused capacity of the caller's buffer is not modelled; a fresh buffer of the announced size stands for the resized one.
