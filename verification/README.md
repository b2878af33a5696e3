# Orders service: model and proofs

A Dafny model of a Kafka-to-Postgres order service with a read-through cache, and proofs of
what its four stateful parts promise, alone and together. `dafny verify dfyconfig.toml` checks
everything.

**The cache** (`internal/cache/memory`). `LruCache.LRUCacheTTL` has real list nodes
(`LinkedList`), an index, entries and order objects on the heap, and is proved against value
functions (`LruSpec`). About those, for every run: the list invariants, conservation of the
counters (`LruCounters`), the order of expiry times when clock readings go back a little
(`LruExpiry`), exact LRU contents and stack distance (`LruRecency`), inclusion of a smaller
cache in a larger one (`LruInclusion`), which ids are answered when entries expire
(`LruSliding`). `CopyIsolation` runs clients that write through every pointer they ever had.

**The store** (`internal/repo/postgres`, `migrations`). `Tables` has the five tables, the
effect of each statement of `Save` and the constraints that can make it fail; `SaveHistory` has
sequences of saves with failures; `Repository.OrderRepository` has `Save`, `GetByUID`,
`ListByCustomer` and `LastN`; `Pages` has ordering, LIMIT and OFFSET, `Columns` what the tables
take and hold, in numbers.

**The service** (`internal/usecase`). `ServiceSpec` and `Service.OrderService` with atomic
calls, for `Coherence` of cache and database; `Interleaving` with readers and writers taking
single steps, and `Freshness` about when these leave the cache right. `Acceptance` says field by
field which messages are saved, rejected and retried; `App` starts the service and the consumer
with what is configured.

**The consumer loop** (`internal/kafka`). `ConsumerSpec` and `Consumer.Consumer`, over one
partition with a cumulative committed position; `CommitSafety` for one session, `Overtaking` for
one session in terms of what it meets, `Sessions` for any number of them, `SessionEffects` and
`Redelivery` for what they do to the database when each uid has one transaction of its own,
`Backoff` for the delays. A good message is a valid one whose order breaks no column constraint,
so that empty tables would take it.

What the environment decides is a parameter, restricted to what it promises: clock readings,
random draws, rows a query returns (in any order unless ORDER BY), failing statements, commits
whose answer is lost, commits the broker does not record, and when a session ends. A decoded
message is an order and whether its email address parses.

Three comments in the source promise more than the code does; the model follows the code.

- `Run` says that temporary errors are processed again (`internal/kafka/consumer.go:76-80`). A
  later commit moves the cumulative position past a failed message:
  `CommitSafety.BadJSONIsOvertaken` is an input, `Overtaking.FailuresRetriedIff` says exactly on
  which inputs no message is passed over. Passing over bad JSON loses nothing, but a save that
  breaks loses its order (`Redelivery.BrokenSaveIsLost`), and so does a transaction that another
  order has (`Redelivery.SharedTransactionIsLost`). `Sessions.AtLeastOnceIff` and
  `Sessions.MissesNoValidIff` say exactly when every message below the position was saved. When each
  uid has one transaction of its own, `Redelivery.CleanIff` says exactly when the database ends as
  after one clean pass, and `Redelivery.OnceOnly` that it does when no save is lost.
- `Save` is called an idempotent upsert of all parts
  (`internal/repo/postgres/order_repository.go:25`). It is idempotent, but a later save does not
  replace `payments.transaction`. `Tables.ReadsBackIff` says exactly when an order is read back
  as it was saved. After a save that brings another transaction the cache answers the new one
  until the entry is gone, and then `GetOrder` answers the first one again
  (`Coherence.TransactionFlips`).
- Warm-up is meant to cache the last N orders (`internal/usecase/order_service.go:117`). With N
  above the capacity the newest ones are evicted; `Coherence.WarmUpMakesHits` says exactly which
  orders are answered afterwards.

Two more promises one might expect are false, each with a run that breaks it and the exact
condition. A save that is committed and loses its answer can leave an older order in the cache
(`Coherence.LostAnswerLeavesStale`, `Coherence.SaveKeeps`). A slow request can leave a torn order
in the cache over a newer one (`Freshness.SlowReaderTears`, `Freshness.CachedIsCurrentIff`); it
cannot when no save of an order is committed while a request is reading it
(`Freshness.QuietScheduleIsCoherent`).

## Model

| member | source | states |
|---|---|---|
| LruSpec.StepKeepsWellFormed | internal/cache/memory/order_cache.go:57-141 | every `Get` and `Set` keeps the list free of duplicate ids, within capacity, and the size gauge equal to its length |
| LruSpec.RunWellFormed | internal/cache/memory/order_cache.go:57-141 | the same over every run |
| LruCounters.GetCountsOnce | internal/cache/memory/order_cache.go:57-99 | a `Get` counts exactly one of hit, miss and expired; hit iff an order is answered, miss iff the id has no slot |
| LruCounters.Conservation | internal/cache/memory/order_cache_helpers.go:12-71 | over every run insertions = size + evicted + expired, and gets + pruned slots = hit + miss + expired |
| LruExpiry.RunKeepsOrder | internal/cache/memory/order_cache.go:63-132 | if clock readings go back by at most δ, no slot expires more than δ before a slot behind it |
| LruExpiry.PruneAfterRun | internal/cache/memory/order_cache_helpers.go:48-71 | after such a run pruning leaves only slots with expiresAt >= now - δ; with δ = 0 no expired slot |
| LruExpiry.SkewLeavesExpired | internal/cache/memory/order_cache_helpers.go:48-71 | the bound is tight: a two-call run in which pruning leaves a slot that expired δ ago |
| LruExpiry.TouchExtends | internal/cache/memory/order_cache.go:89-98 | the TTL slides: after a `Set` or a hit the id answers that order until exactly the TTL later |
| LruInclusion.RunIncluded | internal/cache/memory/order_cache.go:57-141 | two caches of equal TTL on one run: the smaller list is a subsequence of the larger, slot for slot, and live ids only in the larger number at most the difference of capacities |
| LruInclusion.Inclusion | internal/cache/memory/order_cache.go:57-141 | hence a hit in the smaller cache is the same hit in the larger |
| LruInclusion.RoomInLarge | internal/cache/memory/order_cache.go:124-139 | if pruning leaves the smaller cache room, the larger one does not evict |
| LruInclusion.EvictsOnlyLive | internal/cache/memory/order_cache.go:124-139 | under a monotone clock an insertion leaves no expired slot, and evicts iff the list held `capacity` live ones |
| LruRecency.ExactContents | internal/cache/memory/order_cache.go:89-139 | with ttl <= 0 the list is exactly the `capacity` most recently touched distinct keys, in recency order |
| LruRecency.CachedIffRecent | internal/cache/memory/order_cache.go:89-139 | with ttl <= 0 a key is cached iff it was touched and fewer than `capacity` other keys were touched since |
| LruRecency.RecentPrefix | internal/cache/memory/order_cache.go:89-98 | in front of a key in the recency order stand exactly the keys touched after it |
| LruRecency.ContentsAreLatest | internal/cache/memory/order_cache.go:113-132 | a listed order is the content of the latest `Set` of its id |
| LruRecency.HitIsLatest | internal/cache/memory/order_cache.go:57-99 | so is every order a `Get` answers |
| LruRecency.WarmUpContents | internal/cache/memory/order_cache.go:144-156 | warming an empty cache leaves exactly the orders among the last `capacity` that had not expired when the last one was stored, last in front |
| LruRecency.WarmUpHits | internal/cache/memory/order_cache.go:144-156 | an order of the warm-up list is a hit afterwards iff it is among the last `capacity` and was stored no longer than the TTL ago |
| LruSliding.StepTracks | internal/cache/memory/order_cache.go:57-141 | one call, for any id: while the id is live, exactly the ids touched after it stand in front of it, and it is listed unless `capacity` were |
| LruSliding.AnsweredIff | internal/cache/memory/order_cache.go:57-141 | with any TTL and a clock that does not go back an id is answered iff it was touched, no longer than the TTL ago, and fewer than `capacity` other ids were touched since |
| LinkedList.List.LinkFront | internal/cache/memory/order_cache.go:127-132 | linking an element prepends it to the list |
| LinkedList.List.PushFront | internal/cache/memory/order_cache.go:128-132 | a new element in front, the others as they were |
| LinkedList.List.Remove | internal/cache/memory/order_cache_helpers.go:28 | exactly the given element leaves the list |
| LinkedList.List.MoveToFront | internal/cache/memory/order_cache.go:90 | the element goes to the front, the others keep their order |
| LruCache.CloneOrder | internal/cache/memory/order_cache_helpers.go:75-84 | equal content, nothing shared: fresh object, fresh item array; nil for nil |
| LruCache.LRUCacheTTL.constructor | internal/cache/memory/order_cache.go:42-52 | an empty valid cache of capacity at least 1 |
| LruCache.LRUCacheTTL.RemoveElement | internal/cache/memory/order_cache_helpers.go:21-29 | list and index lose exactly that element; the index stays exact |
| LruCache.LRUCacheTTL.EvictLRU | internal/cache/memory/order_cache_helpers.go:12-18 | the last slot goes and is counted; an empty list is left alone |
| LruCache.LRUCacheTTL.PruneExpiredFromBack | internal/cache/memory/order_cache_helpers.go:48-71 | the expired tail goes, each slot counted, the gauge follows; a value that is not an entry cannot occur |
| LruCache.LRUCacheTTL.Get | internal/cache/memory/order_cache.go:57-99 | the heap cache answers and changes as the value cache; a hit is a fresh copy |
| LruCache.LRUCacheTTL.Set | internal/cache/memory/order_cache.go:103-141 | the heap cache changes as the value cache and adopts only fresh objects; refused iff no order or no uid |
| LruCache.LRUCacheTTL.WarmUp | internal/cache/memory/order_cache.go:144-156 | stores the orders in turn up to cancellation or the first refused one, and says which |
| CopyIsolation.RunClient | internal/cache/memory/order_cache_helpers.go:73-84 | whatever a client writes to its own or returned objects, answers are those of the value cache on the contents at call time; on a new cache, of the latest `Set` |
| CopyIsolation.AnswersAreLatest | internal/cache/memory/order_cache.go:98-132 | the answers of a run are the contents of the latest `Set` calls before them |
| Tables.SavedConsistent | migrations/20250818110534_init.sql:3-60 | a successful `Save` keeps every foreign key, one delivery and one payment per order, unique transactions, unique item ids, and all checks; `Columns.StoredColumns` gives the checks in numbers |
| Columns.SavableColumns | migrations/20250818110534_init.sql:3-60 | the orders the tables take, in the numbers of the columns: uid and customer given, INTEGER columns in [-2147483648, 2147483647], those with a CHECK from 0, payment_dt from 0, and a transaction no order has, unless the uid has a payment row |
| Columns.StoredColumns | migrations/20250818110534_init.sql:3-60 | after any saves every stored row is within these numbers, each order has its customer, delivery and payment rows, and each item its order |
| Tables.ViewOfSaved | internal/repo/postgres/order_repository.go:45-129 | a `Save` rewrites base row, delivery, payment but its transaction, and items of its own uid, and nothing of any other uid |
| Tables.ItemsOfSaved | internal/repo/postgres/order_repository.go:121-129 | the items of the saved uid are replaced, those of others stay |
| Tables.ReadsBackIff | internal/repo/postgres/order_repository.go:97-113 | a saved order is read back as it was saved iff its row had the same transaction or there was no row |
| Tables.SaveIdempotent | internal/repo/postgres/order_repository.go:25-136 | saving an order twice is saving it once, item row ids aside |
| SaveHistory.RunRecords | internal/repo/postgres/order_repository.go:26-136 | after any sequence of saves with any failures the tables are exactly the history of the committed ones, and all constraints hold |
| SaveHistory.ReadAfterSaves | internal/repo/postgres/order_repository.go:139-204 | a read answers the last order saved for the uid with the transaction of the first save, and nothing iff there was none |
| SaveHistory.LatestOfOne | internal/repo/postgres/order_repository.go:97-113 | one more save makes the reference history what the upsert makes of the rows |
| Repository.OrderRepository.Save | internal/repo/postgres/order_repository.go:26-136 | statement by statement; when nothing breaks it succeeds iff uid and customer are given, every number fits its column (bounds written out) and the transaction is free or the uid has a payment row; a failure before the commit changes no table, a missing uid or customer nothing at all |
| Repository.OrderRepository.GetByUID | internal/repo/postgres/order_repository.go:139-204 | answers what its four queries find, each at its own moment, items in the order returned, empty fields for a missing side row; nothing iff the first finds no row; an error iff a query fails |
| Repository.OrderRepository.ListByCustomer | internal/repo/postgres/order_repository.go:209-355 | dates do not increase and of equal dates the larger uid comes first; the page holds exactly the rows of the customer with at least `offset` (0 if negative) and fewer than `offset + limit` (20 if not positive) rows ahead; each order is what the single read would find at the moments of the four queries, items by chrt_id; nothing and an error iff a query fails |
| Repository.ScanBases | internal/repo/postgres/order_repository.go:232-250 | one fresh object per row, found by uid |
| Repository.FillPayments | internal/repo/postgres/order_repository.go:266-280 | every object gets its own payment row, in whatever order rows come |
| Repository.FillDeliveries | internal/repo/postgres/order_repository.go:297-310 | every object gets its own delivery row, in whatever order rows come |
| Repository.FillSides | internal/repo/postgres/order_repository.go:256-311 | both, unless one of the two queries fails |
| Repository.GroupItems | internal/repo/postgres/order_repository.go:318-341 | each uid gets exactly its items, in row order |
| Repository.Attach | internal/repo/postgres/order_repository.go:349-353 | every object gets the items grouped under its uid |
| Repository.OrderRepository.LastN | internal/repo/postgres/order_repository.go:359-394 | the smaller of n and all orders, each as the single read finds it at its own moments; when nothing is committed meanwhile, distinct, dates not increasing, and no order left out is newer than one returned; an error iff a query fails |
| Rows.ListingOfOne | internal/repo/postgres/order_repository.go:319-326 | one order's rows in a listing of many orders' rows are a listing of that order's rows |
| Rows.SortedRowsOf | internal/repo/postgres/order_repository.go:319-341 | the items grouped from the ordered listing are sorted by chrt_id |
| Pages.OrderUnique | internal/repo/postgres/order_repository.go:218-226 | the customer query has one answer order: the key breaks every tie |
| Pages.CustomerOrdersSorted | internal/repo/postgres/order_repository.go:218-226 | the whole answer: exactly the rows of the customer, dates not increasing, of equal dates the larger uid first |
| Pages.PageExact | internal/repo/postgres/order_repository.go:210-226 | every page, for every limit and offset: the same order, and exactly the rows that have between `offset` and `offset + limit` rows of the customer ahead of them |
| Pages.LargerIff | internal/repo/postgres/order_repository.go:218-226 | of two uids the larger one is larger at the first character where they differ, or extends the other |
| Pages.PagesPartition | internal/repo/postgres/order_repository.go:210-226 | pages of k at 0, k, 2k, ... up to the first empty one hold each order of the customer exactly once, dates not increasing, of equal dates the larger uid first |
| Service.OrderService.GetOrder | internal/usecase/order_service.go:40-63 | the call answers and changes the cache as the value service, its queries each at its own moment; an error iff the cache misses and the database read fails |
| Coherence.AnswerComesFrom | internal/usecase/order_service.go:40-63 | the answer is the order of the unexpired slot of the uid, if there is one; otherwise it has the base row, delivery, payment and items the four queries find, and there is none iff no base row is found or a query fails |
| Service.OrderService.SaveFromMessage | internal/usecase/order_service.go:80-115 | decode, validate, save, cache, with the new state of the value service; Invalid iff the message is decoded and one of the validated fields is wrong, Success iff nothing breaks and every field is given and in range and the transaction is free or the uid has a payment row, field by field |
| Service.OrderService.WarmUpCache | internal/usecase/order_service.go:119-136 | a failing read or n <= 0 changes nothing; otherwise the orders read, each query at its own moment, are stored until the context ends; on a new cache and unchanged tables, what is left is as `Coherence.WarmedAreNewest` says |
| App.StartService | internal/app/bootstrap.go:84-96 | the service as it is started, with its own cache: if the capacity holds the orders read and none expires meanwhile, the cache has the smaller of N and all orders and no uncached order is newer than a cached one; a failed warm-up leaves the cache empty |
| Acceptance.InvalidIff | pkg/validate/order_validator.go:29-108 | a message is rejected for good iff it is decoded and uid, track number, entry, transaction, currency or email is empty, the email does not parse, the date is before 2000, the amount is negative, there is no item, or an item has no name or a negative price or total |
| Acceptance.SuccessIff | internal/usecase/order_service.go:80-115 | a message is saved iff nothing breaks, all of these are right, the customer is given, every number fits its column and the transaction is free or the uid has a payment row |
| Acceptance.RunStoresComplete | internal/usecase/order_service.go:80-115 | in every reachable state of the service every stored order has all of this: its side rows, at least one item, the validated fields, and numbers within the columns |
| Coherence.SaveKeeps | internal/usecase/order_service.go:80-115 | the cache stays coherent, except that a committed save with a lost answer leaves it coherent iff no older slot of that uid was cached |
| Coherence.GetOrderKeeps | internal/usecase/order_service.go:40-63 | `GetOrder` keeps the cache coherent |
| Coherence.WarmUpKeeps | internal/usecase/order_service.go:119-136 | so does warm-up, wherever it stops |
| Coherence.RunCoherent | internal/usecase/order_service.go:40-136 | in every run without lost answers every cached order mirrors the database in every state |
| Coherence.RunCarries | internal/repo/postgres/order_repository.go:97-113 | if the orders of a uid committed so far share a transaction, its row and its cached order carry it |
| Coherence.ReadThrough | internal/usecase/order_service.go:40-63 | in such runs `GetOrder` answers what the database would, the transaction excepted; included if the orders of that uid committed so far share one |
| Coherence.SavedIsHit | internal/usecase/order_service.go:102-111 | a successful message is the answer to later `GetOrder` calls for exactly the TTL |
| Coherence.AnswerIsHit | internal/usecase/order_service.go:54-59 | an answer of `GetOrder` stays a hit for exactly the TTL |
| Coherence.LostAnswerLeavesStale | internal/usecase/order_service.go:102-111 | a run of two saves, the second committed with its answer lost, that ends with the older order cached |
| Coherence.SavedAgreesIff | internal/repo/postgres/order_repository.go:97-113 | after a successful message the cached order is the row, transaction included, iff the row had this transaction or none |
| Coherence.TransactionFlips | internal/usecase/order_service.go:40-63 | a run of two saves with different transactions: the cache answers the second, the database the first, and `GetOrder` the first again once the entry has expired |
| Coherence.WarmUpMakesHits | internal/usecase/order_service.go:119-136 | on a new cache an order of `LastN` is a hit iff it is among the last `capacity` and stored no longer than the TTL ago; all are, for the TTL, when n <= capacity; hits equal the database |
| Coherence.WarmedAreNewest | internal/repo/postgres/order_repository.go:364-394 | a new cache warmed from `LastN` holds rows of the tables; if the capacity holds all that were read and none expires meanwhile, as many as N and the tables allow, and no uncached order is newer than a cached one; orders read but not cached are never older than cached ones |
| Interleaving.TablesAreNewest | internal/repo/postgres/order_repository.go:143-183 | a select sees the newest committed version, with the first version's transaction |
| Interleaving.NextKeeps | internal/usecase/order_service.go:40-115 | every single step of every reader and writer keeps cached, held and returned parts within the commit history |
| Interleaving.SoloReadIsGetOrder | internal/usecase/order_service.go:40-63 | a reader whose steps nobody interrupts does what the atomic `GetOrder` does |
| Interleaving.ReaderIsGetByUID | internal/repo/postgres/order_repository.go:139-204 | a reader whose selects run at four moments holds what `GetByUID` reads at them |
| Interleaving.SoloWriteIsSave | internal/usecase/order_service.go:102-111 | a commit and the cache store after it are the atomic save of a valid message |
| Interleaving.NothingInvented | internal/repo/postgres/order_repository.go:139-204 | in every interleaving a cached or returned order consists of whole parts of committed versions of its uid, never older in select order |
| Freshness.HeldIsCurrentIff | internal/usecase/order_service.go:48-56 | the order a reader is about to store is what the database says iff no part has changed since it was read; if base rows differ, iff no save was committed since the first select |
| Freshness.CachedIsCurrentIff | internal/usecase/order_service.go:40-115 | in every interleaving a cached order mirrors the database iff no part has changed since it was read for the store that put it there; if base rows differ, iff no save was committed since that first select |
| Freshness.CoherentIff | internal/usecase/order_service.go:40-115 | hence the exact condition for the whole cache to mirror the database |
| Freshness.CoherentWhenBasesDiffer | internal/usecase/order_service.go:40-115 | the same when every save changes the base row: no save of a cached uid was committed since the first select, or the commit, it was last stored from |
| Freshness.StepFresh | internal/usecase/order_service.go:40-115 | one step of a schedule with one writer at a time and no commit during a read of the same uid keeps every slot current or about to be replaced |
| Freshness.QuietScheduleIsCoherent | internal/usecase/order_service.go:40-115 | under such a schedule, with no answer lost over an older slot, the cache mirrors the database whenever the writers are done |
| Freshness.SlowReaderTears | internal/usecase/order_service.go:48-59 | for any two versions a run with one writer at a time and one HTTP request leaves the old base row with the new items in the cache over the newer order, with nobody left to correct it |
| Backoff.JitterRange | internal/kafka/consumer_helpers.go:65-72 | the sleep lies between half the delay and the delay, and every value there is possible |
| Backoff.DelayIsIntended | internal/kafka/consumer_helpers.go:55-61 | the k-th delay is the initial one for k = 0 and min(2^k * initial, maximum) after, for settings up to half of int64 |
| Backoff.BackoffExact | internal/kafka/consumer_helpers.go:55-61 | all delays are as intended iff both settings are at most half of int64 |
| Consumer.Consumer.constructor | internal/kafka/consumer.go:45-74 | counters at zero; the initial delay as configured if positive, else 1 s, the largest as configured if positive, else 30 s |
| App.RunConsumer | internal/app/bootstrap.go:122-131 | a consumer built with configured delays and run: a first fetch that fails is followed by a retry between half and all of the configured initial delay, so is every first retry in a row; no retry exceeds both settings; pauses are at most 0.5 s and the initial delay, and at least half of one of them |
| Consumer.Consumer.HandleMessage | internal/kafka/consumer_helpers.go:14-35 | commit is asked for iff the outcome is not temporary; processed counts successes, failed the rest |
| Consumer.Consumer.Run | internal/kafka/consumer.go:81-121 | the loop over any rounds does what the value loop does, event by event |
| CommitSafety.SessionSafe | internal/kafka/consumer.go:88-120 | each commit concerns the message just fetched, after its order was committed or it was rejected leaving everything untouched; commits in fetch order; failed offsets never committed; consumed = processed + failed |
| CommitSafety.BackoffInLoop | internal/kafka/consumer.go:86-108 | in every session, after the last successful fetch or the start, the k-th consecutive failure sleeps between half the intended delay and all of it |
| CommitSafety.SessionPauses | internal/kafka/consumer.go:112-119 | in every session the loop pauses exactly after temporary failures of the message just fetched, at most `retryInitial` and 500000000 ns, at least half of one of the two |
| CommitSafety.SessionRetries | internal/kafka/consumer.go:86-108 | in every session the first retry in a row sleeps between half and all of `retryInitial`, none longer than both settings, and a session whose first fetch fails starts with one |
| CommitSafety.SessionCounts | internal/kafka/consumer_helpers.go:14-35 | processed counts the messages saved, failed those that were invalid or failed for the time being |
| CommitSafety.CancelStops | internal/kafka/consumer.go:92-101 | once the context is done the loop changes nothing more, whatever comes: nothing at all if it is done when the fetch fails, one sleep if it ends during the sleep |
| CommitSafety.BadJSONIsOvertaken | internal/kafka/consumer_helpers.go:23-33 | a message that is not JSON, then any message that does not fail temporarily and whose commit is recorded: the position is past both, the first never processed |
| Overtaking.SessionFollows | internal/kafka/consumer.go:88-120 | next offset, position, database and failures of a session are a function of the messages, the fates of their saves and of their commits |
| Overtaking.FailuresRetriedIff | internal/kafka/consumer.go:76-119 | no temporarily failed message is passed by the position iff no message whose commit is called and recorded is delivered after one that fails |
| Sessions.SessionIs | internal/kafka/consumer.go:88-120 | each of any number of sessions starts at the committed position, or where it joins while there is none, and moves it and the database as the messages, their saves and their commits say |
| Sessions.SessionBegins | internal/kafka/consumer_config.go:39-46 | what a session consumes starts at the committed position, or, while there is none, at the offset where it joins (at most the end of the log) |
| Sessions.AtLeastOnceIff | internal/kafka/consumer.go:76-119 | for whatever messages: each of them below the committed position was committed to the database by some session iff each one that a session moved past without committing it had been committed by an earlier one |
| Sessions.MissesNoneIff | internal/kafka/consumer.go:76-119 | a session moves past none of them uncommitted iff it skips none when it joins the log and nothing that passes is, or follows, one it did not commit |
| Sessions.MissesNoValidIff | internal/kafka/consumer.go:76-119 | of the valid messages: iff it skips none when it joins the log and no message whose commit is called and recorded comes after a valid one it did not save |
| Sessions.AllAreSaved | internal/kafka/consumer.go:76-119 | so sessions that all do leave none of them uncommitted below the position |
| Sessions.SavedIsFound | internal/repo/postgres/order_repository.go:26-136 | an order committed by a session is found under its uid after all sessions |
| SessionEffects.OutcomeExpected | internal/kafka/consumer_helpers.go:14-35 | if the orders saved before and this one give each uid one transaction and each transaction one uid, a message fails temporarily iff it is not JSON, or valid and refused by some constraint, or something goes wrong with its save |
| SessionEffects.SessionRecords | internal/kafka/consumer.go:88-120 | then one session adds to the database exactly the good orders whose saves do not break, in order |
| SessionEffects.SessionCovers | internal/kafka/consumer.go:88-120 | if no message whose commit is recorded comes after a broken save, what the session adds starts with all good orders up to the position it reaches |
| Redelivery.SessionsRecord | internal/kafka/consumer.go:88-120 | with transactions one to one with uids (among good messages, as in all rows of this module) the committed position and the recorded history after any sessions follow from the messages, their saves and their commits alone |
| Redelivery.SavedInTrace | internal/kafka/consumer_helpers.go:14-42 | with transactions one to one with uids a session commits exactly the good messages it meets whose saves do not break, as the loop's trace says |
| Redelivery.GoodAtLeastOnceIff | internal/kafka/consumer.go:76-119 | with transactions one to one with uids the condition for good messages to be saved at least once, told from messages, saves and commits |
| Redelivery.GoodMissesNoneIff | internal/kafka/consumer.go:76-119 | with transactions one to one with uids a session misses no good message iff it skips none when it joins the log and no message whose commit is recorded comes after a broken save |
| Redelivery.CarefulSessionsSaveAll | internal/kafka/consumer.go:76-119 | with transactions one to one with uids sessions that all do save every good message below the position |
| Redelivery.CleanPassSucceeds | internal/repo/postgres/order_repository.go:26-136 | with transactions one to one with uids, saving each acceptable order once in order always succeeds |
| Redelivery.CleanIff | internal/kafka/consumer_helpers.go:14-42 | with transactions one to one with uids the database ends as after one clean pass over the good messages iff what was saved names the same customers and ends, for each uid, with the same order |
| Redelivery.SessionsOnTrack | internal/kafka/consumer.go:88-120 | after sessions that miss nothing the rest of the log would complete the history |
| Redelivery.OnceOnly | internal/kafka/consumer_helpers.go:14-42 | with transactions one to one with uids any sessions with crashes, broken saves, lost answers, lost commits and messages that can never be processed, each missing nothing good: once no good message lies beyond the position, the tables equal one in-order successful save of every good message |
| Redelivery.BrokenSaveIsLost | internal/kafka/consumer.go:112-119 | a run of two good messages, the first with a broken save: the position is past both and the first order is nowhere |
| Redelivery.SharedTransactionIsLost | migrations/20250818110534_init.sql:30-43 | a run without any trouble over two good orders that share a transaction: the position is at the end and the second order is nowhere |

## Left out

- HTTP router, parameter clamping, request ids, logging, tracing, metrics registration, config loading, the rest of bootstrap, web page, mocks: plumbing, or settled by one branch.
- `OrdersByCustomer` of the service: it only passes its arguments on to `ListByCustomer`.
- JSON decoding and email parsing: a message is undecodable, or an order with a flag saying whether its email parses.
- The validators for files and JSONL in `pkg/validate`: a counting loop around JSON decoding.
- Postgres protocol, pool, NULLs, text encoding: a statement fails on its constraints, on 32-bit ranges, or because the environment makes it fail.
- `customers.created_at`: set by the database clock and never read.
- Dates are whole microseconds, as the column holds them; a message with finer dates is cached as sent and read back rounded.
- Uids are ordered as character sequences; a database collation may order them otherwise, and the paging proofs only use that the order is total.
- Cache calls of other requests between the lookup and the store of `GetOrder` are not part of `Service`; they are the subject of `Interleaving` and `Freshness`.
- LruCache.LRUCacheTTL.Get: does not model the mutex or two concurrent calls; a call is one atomic step whose clock reading was taken earlier. Clock arithmetic does not overflow.
- Consumer.Consumer.Run: runs over the rounds it is given, because the original loop has no end; the processing timeout is one of the faults a save can meet. `Close` is not modelled.
- Redelivery.OnceOnly: sessions start with an empty cache, since the database does not depend on it; several partitions and rebalancing are not modelled. The start offset is modelled by the offset at which a session joins while nothing is committed (`internal/kafka/consumer_config.go:39-46`).
