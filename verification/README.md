# gofusion in Dafny

A model of the parts of gofusion that are hard to get right, and proofs about them: the lock-free Future
and WhenAll, the goroutine budget, the Redis and MongoDB locks and `lock.Within`, table sharding by SQL
rewriting and by model, the read-through cache, ZooKeeper and etcd paging, the keyset table scan and the
duration parser. `dafny verify dfyconfig.toml` checks the whole project.

| file | component |
|---|---|
| `Future.dfy`, `Overlap.dfy`, `Calls.dfy`, `Many.dfy`, `WhenAll.dfy` | `routine/future.go`, `routine/promise.go`, `whenAllFuture` in `routine/candy.go` |
| `Budget.dfy` | `routine/pool.go`, the shutdown test in `routine/construct.go` |
| `RedisLock.dfy`, `MongoLock.dfy`, `Within.dfy` | `lock/redis.go`, `lock/mongo.go`, `lock/candy.go` |
| `Sql.dfy`, `Sharding.dfy`, `Routing.dfy`, `ShardingRefinement.dfy` | `db/plugins/table_sharding.go`: statements |
| `Statements.dfy` | the database the sharded tables are compared with: what each statement does, row by row |
| `Dal.dfy` | `db/dal.go` and `db/plugins/table_sharding.go`: models, suffixes |
| `Cache.dfy` | `cache/cache.go`, `cache/local.go` |
| `Zk.dfy`, `Etcd.dfy` | `kv/zk.go`, `kv/etcd.go` |
| `Scan.dfy` | `db/candy.go` |
| `Duration.dfy` | `common/utils/duration.go` |
| `Options.dfy` | the optional value used everywhere |

How things are modelled:

- Concurrent code is a step system. Every load, append, compare-and-swap, channel operation or database
  call is one action of one thread; `Step` is total and leaves the state alone when the action is not
  possible; a theorem about `Run(s, actions)` is about every interleaving.
- Objects whose methods change fields are classes (`Redis`, `Collection`, `Counters`, `GCache`, `Cache`,
  the two `Pagination` classes). Their methods are proved against functions on states, and the laws are
  proved about those functions.
- Clocks, failing queries, lost cache entries, refused writes, callbacks and checksums are parameters, so each
  theorem holds for all of them. So is the dialect of the database; the refinement theorems ask of it only that
  a conjunction is true when both sides are and that values it takes for equal, such as strings in different
  case, are written the same way in a sharding key column.

## Where the code does less than it seems to promise

Each of these is a counterexample or an exact condition in the proofs.

- Two registrations of one kind that overlap on a Future can lose a callback. Once both are stored, the one
  that published first is lost, and the other stored twice, exactly when the slice had spare capacity and the
  other appended to it last (`FutureOverlap.OverlapExactly`). Once the Future has settled with a result that
  fires, the first to publish has never run, and the other has run twice, exactly when the slice had spare
  capacity and the goroutine found the other's callback in the cell when it visited it
  (`FutureCalls.CallsExactly`, `FutureCalls.NeverRuns`). With any number of overlapping registrations, all are
  stored once exactly when every cell holds the callback that published it (`FutureMany.ManyExactly`).
- A Redis lock with an expiry below one millisecond excludes nobody (`RedisLock.FreshLockExcludes`).
- In the MongoDB lock, another client that finds the document expired increments it, and it then survives
  the holder's last unlock (`MongoLock.DeleteExactly`, `MongoLock.ForeignKeepsDocument`).
- `Within` runs its body without the lock exactly when a lock attempt of the call panicked, and leaves the lock
  held when it gives up while an attempt succeeds (`WithinProtocol.BodyOnlyUnderLock`,
  `WithinProtocol.LeakExactly`).
- An equation under `OR` routes a statement to one table although rows of other tables may match
  (`ShardingRefinement.OrExact`, `ShardingRefinement.OrLosesRows`); a renamed condition keeps references to
  the old table except on the left of binary operators (`Sql.RenameLeftExact`).
- With 10000 shards or more no routed table is one the migrator creates (`Dal.RoutedAreMigrated`).
- Deletes the provider refuses make the cache forget stored keys (`Cache.StuckExactly`, `Cache.StuckHappens`).
- Listing or deleting below `"/"` fails as soon as `"/"` has children (`Zk.ListingFailsExactly`); resuming a
  ZooKeeper traversal drops subtrees (`Zk.ResumeExact`, `Zk.ResumeDrops`); resuming an etcd traversal drops a key
  equal to the cursor (`Etcd.ResumeExact`, `Etcd.ResumeDrops`).
- An ending Loop can hide a running routine from the shutdown test and can bring the idle counter to zero
  (`Budget.WindowHidesRoutine`, `Budget.LoopBreaksFloor`).
- A duration whose partial sum and next segment are both exactly 2^63 nanoseconds restarts from zero
  (`Duration.ParseWraps`, `Duration.WrapHappens`).

## Model

| member | source | states |
|---|---|---|
| `FutureProtocol.RecordsStep` | routine/future.go:302-413 | In every step published records are immutable, a published result stays the published record, and only a completer's successful compare-and-swap brings a result |
| `FutureProtocol.SingleStep` | routine/future.go:302-413 | Every step of every thread keeps the single-assignment invariant, never changes a result and never takes a close of `final` back |
| `FutureProtocol.SingleRun` | routine/future.go:302-360 | The same over every schedule |
| `FutureProtocol.SingleAssignment` | routine/future.go:302-360 | In every schedule the result is assigned at most once, `final` is closed at most once and only with a result there, at most one completer returns no error, and exactly one when all have returned |
| `FutureProtocol.FireListCounts` | routine/candy_utils.go:200-236 | The goroutine that runs callbacks visits every stored callback whose kind fires exactly once and no other |
| `FutureProtocol.AppendFrame` | routine/future.go:363-413 | An append to a published callback slice, in place or into a grown array, changes nothing the published record can see |
| `FutureProtocol.OnceStep` | routine/future.go:302-413 | Every step keeps the exactly-once invariant, if a registration starts only when no other one of its kind is under way |
| `FutureProtocol.OnceRun` | routine/future.go:302-413 | The same over every schedule |
| `FutureProtocol.ExactlyOnce` | routine/future.go:302-413 | With registrations of one kind one at a time, those of different kinds overlapping in any way and any racing completers, no callback runs early, twice, with another result or when its kind does not fire, and after settling every callback that fires has run once |
| `FutureProtocol.GetChanDeliversOnce` | routine/future.go:122-130 | The channel of GetChan has received exactly one message once the Future has settled |
| `FutureProtocol.OwnedRun` | routine/future.go:363-413 | In every schedule each backing array belongs to one callback kind, and a prepared record differs from its base only in its own kind |
| `FutureOverlap.PairStep` | routine/future.go:363-413 | Every step of two overlapping registrations of one kind, of completers and of other kinds keeps what the two have seen, prepared and published |
| `FutureOverlap.OverlapExactly` | routine/future.go:363-413 | In every interleaving, two registrations of one kind that are both stored are stored once each if and only if the slice they started from was full or the first to publish was the last to append to it; otherwise that one is lost and the other stored twice |
| `FutureOverlap.OneStored` | routine/future.go:363-413 | What the published cell holds while only one of the two is stored |
| `FutureOverlap.LossHappens` | routine/future.go:363-413 | A run on a new Future that leaves the second callback stored twice and the first not at all |
| `FutureOverlap.LossAvoided` | routine/future.go:363-413 | An overlapping run on a new Future with room to spare that loses nothing |
| `FutureCalls.SoundRun` | routine/future.go:302-413 | In every schedule arrays hold only callbacks of their kind, callbacks are called only with the result, and what is left to visit are different cells of the published slices |
| `FutureCalls.CallStep` | routine/future.go:302-413 | Every step keeps count of the calls of an overlapping pair and of what the goroutine found in the cell it shares |
| `FutureCalls.CallsExactly` | routine/future.go:302-413 | In every interleaving of two registrations of one kind with completers and others, after settling with a result that fires and both having returned: each has run once if and only if neither was stored, the slice was full, or the goroutine found the first to publish in its cell; otherwise that one has never run and the other has run twice |
| `FutureCalls.NeverRuns` | routine/future.go:302-413 | A run that settles with the first callback never called and the second called twice |
| `FutureCalls.OverwrittenLate` | routine/future.go:302-413 | A run in which a cell is overwritten after its visit and both callbacks run once |
| `FutureMany.ManyStep` | routine/future.go:363-413 | Every step keeps callbacks at or before the cell they publish, with any number of overlapping registrations |
| `FutureMany.ManyExactly` | routine/future.go:363-413 | In every schedule the published slice has one cell per stored registration, and each is stored exactly once if and only if every cell holds its publisher's callback |
| `WhenAll.UncountedZero` | routine/candy.go:452-509 | The countdown is zero exactly when every success has been counted |
| `WhenAll.StepKeeps` | routine/candy.go:452-509 | Every callback step of every Future keeps the invariant on slots, countdown, flag and combined result |
| `WhenAll.RunKeeps` | routine/candy.go:452-509 | Over every schedule the invariant holds and completed Futures, a decided combined Future and its slots stay |
| `WhenAll.SweepStep` | routine/candy.go:462-499 | Every step keeps a sweep that has come to k with no Future below k incomplete, and no decision before the end of the sweep |
| `WhenAll.WhenAllOutcome` | routine/candy.go:452-509 | For any number of Futures and every interleaving: it resolves only if all succeeded, with slot j the j-th value; after a failure or cancel it never resolves; it completes at most once, and it is complete when all callbacks are over |
| `WhenAll.OthersCancelled` | routine/candy.go:462-499 | In every run: once the combined Future is rejected, or cancelled by a callback, every Future is complete; one that nobody finished is cancelled, on account of another that did not succeed |
| `WhenAll.AllSucceed` | routine/candy.go:452-509 | When all callbacks are over and all Futures succeeded, the combined Future is resolved unless it was cancelled from outside |
| `WhenAll.CallbackMoves` | routine/candy.go:452-509 | The next statement of the callback of a completed Future is always possible and brings it closer to its end |
| `WhenAll.CanAlwaysComplete` | routine/candy.go:452-509 | From every reachable state, whatever results the running Futures end with, the run can go on until they have, all callbacks are over and the combined Future is complete |
| `Budget.Counters.Allocate` | routine/pool.go:107-139 | allocate, with other threads acting in every attempt and in the window of a Loop, is a run of the step system that ends with the share taken or still asked for; alone it succeeds exactly if more than the demand is idle |
| `Budget.Counters.Release` | routine/pool.go:141-165 | release, with other threads acting between its two operations, is the run of Add and Sub |
| `Budget.StepKeeps` | routine/pool.go:107-165 | Every atomic operation of any thread keeps idle, ignored and held shares adding up to the maximum |
| `Budget.SharesAre` | routine/pool.go:107-165 | Held shares are one for each live Go routine, the capacities of the live pools, and one up or down for a Loop in one of its windows |
| `Budget.Conservation` | routine/pool.go:107-165 | In every interleaving idle, ignored, one for every Go routine and the capacities of the pools add up to the maximum, but for one up or down for every Loop inside one of its two windows |
| `Budget.AllExitedMeans` | routine/construct.go:79-81 | In every run the shutdown test says exactly that the held shares, windows included, add up to nothing |
| `Budget.AllExitedExact` | routine/construct.go:79-81 | In quiescent states the shutdown test holds if and only if no Go routine and no pool remains |
| `Budget.IdlesFloor` | routine/pool.go:107-165 | The idle counter is at least one less the number of ended Loops; at least one in runs without Loop |
| `Budget.WindowHidesRoutine` | routine/construct.go:79-81 | A run in which the shutdown test passes while a routine is running |
| `Budget.LoopBreaksFloor` | routine/pool.go:107-165 | A run with a Loop that brings the idle counter to zero |
| `RedisLock.Redis.LockScript` | lock/redis.go:19-33 | The lock script as Redis commands does exactly the lock step on the hash and its expiry |
| `RedisLock.Redis.UnlockScript` | lock/redis.go:35-46 | The unlock script does exactly the unlock step |
| `RedisLock.RepliesExactly` | lock/redis.go:19-46 | A lock succeeds exactly on a free key or the caller's, an unlock exactly on the caller's; a call that does not succeed changes nothing |
| `RedisLock.Millis` | lock/redis.go:58-76 | The expiry sent is the requested one, or the default if none is, rounded down to milliseconds |
| `RedisLock.AlwaysSane` | lock/redis.go:19-46 | In every run of any clients a live key has count at least 1 and an expiry, so the branch for a key without one is dead |
| `RedisLock.TenureStepExact` | lock/redis.go:19-46 | In a tenure the holder's calls succeed, others' fail and change nothing, and the record follows the ledger |
| `RedisLock.MutualExclusion` | lock/redis.go:19-46 | Over whole runs, until the balancing unlock or the expiry, no other holder's call succeeds or changes the record |
| `RedisLock.LedgerSums` | lock/redis.go:19-46 | During a tenure the count is acquisitions minus releases and the deadline the sum of all requested times |
| `RedisLock.Ledger` | lock/redis.go:58-84 | From a free key, the record holds the acquisitions less the releases and the sum of all requested times, in the milliseconds sent, whenever the re-locks happened |
| `RedisLock.GrantedTime` | lock/redis.go:58-76 | The time granted for any number of acquisitions falls short of what was asked for by less than a millisecond for each |
| `RedisLock.HeldAsAsked` | lock/redis.go:58-84 | A lock on a free key and its re-locks hold for the nanoseconds asked for in all, less than a millisecond short for each |
| `RedisLock.FreshLockExcludes` | lock/redis.go:58-76 | A lock on a free key keeps another holder out if and only if its expiry is not below a millisecond |
| `MongoLock.Collection.Lock` | lock/mongo.go:71-110 | The upsert does exactly the lock step, with its replies |
| `MongoLock.Collection.Unlock` | lock/mongo.go:112-142 | Decrement and conditional delete in sequence |
| `MongoLock.RunKeeps` | lock/mongo.go:71-142 | Every interleaving of lock, decrement, delete and removal by the TTL monitor keeps the invariant |
| `MongoLock.LockSafety` | lock/mongo.go:71-142 | In every interleaving the count is never negative nor below the holder's outstanding acquisitions, only the holder can lock the document and it never changes, the delete step never removes a document with an outstanding acquisition, and the TTL monitor removes exactly expired ones |
| `MongoLock.HeldUntilBalanced` | lock/mongo.go:71-142 | From n acquisitions until they are balanced or the document is reaped, the holder keeps the lock in every schedule |
| `MongoLock.FreshLockExpires` | lock/mongo.go:71-110 | A lock taken where there is no document refuses every other client exactly until its expiry, to the moment |
| `MongoLock.ExpiryStep` | lock/mongo.go:71-142 | A successful lock or decrement moves the expiry to the later of the old and the requested one, and nothing else moves it |
| `MongoLock.OneDeleteEach` | lock/mongo.go:112-142 | Every decrement that brings the caller's document to zero, and no other, is followed by exactly one delete |
| `MongoLock.DeleteExactly` | lock/mongo.go:112-142 | Whatever happened since the first step of an unlock, its delete removes the caller's document if and only if releases have caught up with acquisitions and foreign increments |
| `MongoLock.ForeignKeepsDocument` | lock/mongo.go:71-142 | A run in which the holder's only unlock leaves the document |
| `MongoLock.BalancedUnlockDeletes` | lock/mongo.go:112-142 | The last release, when its two steps follow each other, removes the document if and only if no other client has incremented it after it expired |
| `WithinProtocol.Histories` | lock/candy.go:28-75 | Every history of a call is a prefix of one complete course or one that gave up and never ran the body |
| `WithinProtocol.BodyOnlyUnderLock` | lock/candy.go:28-75 | In every schedule the body runs at most once, before the single unlock, and never when an error is returned; it runs under this call's lock if and only if no attempt of the call panicked |
| `WithinProtocol.PanicRunsBodyUnlocked` | lock/candy.go:28-75 | A run in which a panicking attempt lets the body run without the lock |
| `WithinProtocol.LeakExactly` | lock/candy.go:28-75 | In every schedule, when both parties are done the lock is left held if and only if the call failed although its worker acquired it |
| `WithinProtocol.GivesUpForGood` | lock/candy.go:33-62 | In every schedule: once the call has failed and no attempt is under way, no other attempt is made and the history is final |
| `WithinProtocol.CallEnds` | lock/candy.go:28-75 | From every reachable state the call can come to its end and its worker to its own; one that has received `done` runs the body, unlocks and returns |
| `WithinProtocol.LeakHappens` | lock/candy.go:28-75 | A run that leaves the lock held |
| `Sql.RenameAllMeaning` | db/plugins/table_sharding.go:716-729 | Renaming a fresh name in keeps the value of every expression under every interpretation that renames the table |
| `Sql.RenameAllComplete` | db/plugins/table_sharding.go:716-729 | No reference to the old name remains, and renaming back restores the tree |
| `Sql.RenameLeftExact` | db/plugins/table_sharding.go:695-714 | The rewriting of conditions renames every reference if and only if all sit on the left of binary operators, and then it is the full renaming |
| `Sql.RightSurvives` | db/plugins/table_sharding.go:695-714 | In `1 = t.k` the old name stays |
| `Sql.RenameAllIdentity` | db/plugins/table_sharding.go:716-729 | A tree without references to the table is untouched |
| `ShardingRouting.MatchesExactly` | db/plugins/table_sharding.go:803-824 | An equation counts for a key unless its left side is another column |
| `ShardingRouting.WalkVisits` | db/plugins/table_sharding.go:800-847 | The walk of a condition visits its nodes, each before its operands and from left to right, and stops at the first failure |
| `ShardingRouting.ValueExact` | db/plugins/table_sharding.go:800-847 | The value read for a key is the constant of the last equation on it; without one the key is missing, and if any compares it with something else the condition is refused |
| `ShardingRouting.KeyValuesExact` | db/plugins/table_sharding.go:371-388 | The values of all keys in order, or the error of the first key without one |
| `ShardingRouting.ConstantsEvaluate` | db/plugins/table_sharding.go:826-836 | A constant is routed by the value it has where a number literal stands for its text, and stored as the database evaluates it |
| `ShardingRouting.RowExact` | db/plugins/table_sharding.go:731-798 | For an inserted row the first refused key decides the error; otherwise every key supplies the constant of its first column, in key order, or awaits an id |
| `ShardingRouting.InsertExact` | db/plugins/table_sharding.go:391-439 | An INSERT is decided by its first row that cannot be routed or follows rows of another suffix; only a blank suffix may be followed by another; an accepted one goes where its last row goes |
| `ShardingRouting.RefusedChangesNothing` | db/plugins/table_sharding.go:364-564 | A statement is refused exactly when its condition or its rows are, with their error, and then changes nothing |
| `ShardingStatements.InsertStores` | db/plugins/table_sharding.go:364-564 | The INSERT that is sent appends one row for each list of values, with those values in its columns |
| `ShardingStatements.SelectAnswers` | db/plugins/table_sharding.go:364-564 | The SELECT that is sent answers with one line for each row that satisfies its condition, in order, and in it the value of each item |
| `ShardingStatements.UpdateChanges` | db/plugins/table_sharding.go:364-564 | The UPDATE that is sent gives the rows that satisfy its condition the values of its assignments on the row as it was, and leaves other rows and columns alone |
| `ShardingStatements.DeleteRemoves` | db/plugins/table_sharding.go:364-564 | The DELETE that is sent removes the rows that satisfy its condition, and only those |
| `ShardingRefinement.SoundWalk` | db/plugins/table_sharding.go:800-847 | On a conjunction, the walk finds a key value if there is an equation, and every row that satisfies the condition has the value found, whichever duplicate it picks |
| `ShardingRefinement.RoutedRight` | db/plugins/table_sharding.go:800-847 | Such a condition is routed, to the table of every row that satisfies it |
| `ShardingRefinement.SatRenamed` | db/plugins/table_sharding.go:695-714 | The rewritten condition holds of the same rows in the shard |
| `ShardingRefinement.InsertValueRight` | db/plugins/table_sharding.go:731-798 | The routing values of an inserted row are the key values the row is stored with |
| `ShardingRefinement.InsertSuffixExact` | db/plugins/table_sharding.go:731-798 | A multi-row INSERT is accepted exactly when its rows route to one table, and goes there |
| `ShardingRefinement.MatchingSplit` | db/plugins/table_sharding.go:364-564 | The shard answers a query with the rows the logical table would, in order |
| `ShardingRefinement.RemainingSplit` | db/plugins/table_sharding.go:364-564 | Deleting in the shard leaves every shard the rows that remain logically |
| `ShardingRefinement.UpdatedSplit` | db/plugins/table_sharding.go:364-564 | Updating in the shard leaves every shard the logically updated rows, none of which moves |
| `ShardingRefinement.StatementRefines` | db/plugins/table_sharding.go:364-564 | One statement of the fragment gives the logical output and keeps every row in the table its keys route to |
| `ShardingRefinement.OtherTablePasses` | db/plugins/table_sharding.go:391-545 | A statement for another table does exactly what it does without the plugin |
| `ShardingRefinement.ForeignStays` | db/plugins/table_sharding.go:364-564 | A statement for the sharded table leaves the tables that are not its shards as they are |
| `ShardingRefinement.ForeignRefines` | db/plugins/table_sharding.go:391-545 | A statement for a table that is not a shard gives the logical output and keeps the shards and the other tables in agreement |
| `ShardingRefinement.ShardingRefinesOneTable` | db/plugins/table_sharding.go:364-564 | Over every run of INSERT, SELECT, UPDATE and DELETE of the fragment, mixed with any statements for other tables, the sharded tables behave as one logical table and the other tables as without the plugin |
| `ShardingRefinement.AnswerExact` | db/plugins/table_sharding.go:364-564 | For the shard the plugin chooses: a SELECT, UPDATE or DELETE with any condition behaves as on one table on every database if and only if every row satisfying the condition routes to it |
| `ShardingRefinement.OrExact` | db/plugins/table_sharding.go:800-847 | A condition with the key equations on one side of OR goes to their shard, and is answered right on every database if and only if every row satisfying the other side routes there too |
| `ShardingRefinement.OrLosesRows` | db/plugins/table_sharding.go:800-847 | A condition with OR whose matching row is in another table than the one the statement is sent to |
| `Dal.Suffixes` | db/plugins/table_sharding.go:983-999 | The migrator's suffixes, one per shard |
| `Dal.WidthExact` | db/plugins/table_sharding.go:1017-1030 | Up to 9999 shards the number is as wide as the number of shards, and from 10000 on it has no width |
| `Dal.SameLength` | db/plugins/table_sharding.go:1017-1045 | All suffixes of a table with up to 9999 shards have the same length |
| `Dal.JoinConcat` | db/plugins/table_sharding.go:1017-1045 | The sharding keys are joined by underscores in their order |
| `Dal.FormatDistinct` | db/plugins/table_sharding.go:1017-1045 | Different shard numbers have different suffixes, padded or not |
| `Dal.KindsDiffer` | db/plugins/table_sharding.go:1017-1045 | Without a verb in the format, routing and migrating never produce the same suffix |
| `Dal.RoutedAreMigrated` | db/plugins/table_sharding.go:983-1152 | A routed suffix is one of the pairwise distinct migrated ones if and only if there are fewer than 10000 shards |
| `Dal.ReadSuffix` | db/plugins/table_sharding.go:147-163 | The loop over the sharding keys gives the suffix of the model's values, or the first error in key order |
| `Dal.SuffixExact` | db/plugins/table_sharding.go:147-163 | The suffix is the formatted number checksum of the model's fields at the sharding keys, in their order, modulo the shards; the first key the model has no usable value for decides the error |
| `Dal.ModelRoutesAsInserted` | db/plugins/table_sharding.go:145-170 | A model that can be routed, with a positive id if the id is a sharding key, and the INSERT of its columns, in any order, go to the same table |
| `Dal.ShardingByModelList` | db/plugins/table_sharding.go:145-170 | Groups hold, for each suffix, the models going there in input order, up to the first model that cannot be routed, whose error is returned |
| `Dal.WriteWithTableSharding` | db/dal.go:390-408 | The groups in any order are a partition by suffix; an unsharded table gets the list as it is |
| `Dal.GroupingIsStable` | db/dal.go:390-408 | For every table, the groups written one after the other bring the input's models in their order |
| `Dal.CheckDiffSuffixes` | db/plugins/table_sharding.go:906-936 | The check passes exactly the lists whose models are all routed to one table |
| `Dal.CreateInBatches` | db/dal.go:175-179 | The sub-batches of a group concatenate to it and pass the check |
| `Dal.InsertInBatches` | db/dal.go:167-182 | Succeeds exactly when every model can be routed; every statement passes the check and has one table; every table gets its models in order |
| `Cache.GCache.Get` | cache/local.go:41-57 | Hits and misses of the requested keys, misses in order |
| `Cache.GCache.Set` | cache/local.go:59-78 | The entries written in any order except those refused, which keep the old entry and are the failures, less what is lost |
| `Cache.GCache.Del` | cache/local.go:80-96 | Removes the keys except those that fail, which are the failures reported |
| `Cache.Inner` | cache/cache.go:242-255 | The inner key converts back to the key |
| `Cache.Cache.UnsealAll` | cache/cache.go:284-301 | The readable values under their own keys, in any iteration order |
| `Cache.Cache.SealAll` | cache/cache.go:257-274 | The sealable values under their inner keys, in any iteration order |
| `Cache.Cache.Get` | cache/cache.go:96-138 | The values found or loaded for the requested keys in order, the store and the visited keys after it |
| `Cache.Cache.GetAll` | cache/cache.go:140-187 | The same for all visited keys, which lose those without a value |
| `Cache.Cache.Set` | cache/cache.go:189-208 | Sealed entries are stored, unless refused, and visited; the failures are the keys not sealed or refused |
| `Cache.Cache.Del` | cache/cache.go:210-221 | The keys leave the store, unless stuck, and the visited keys; the stuck ones that were stored are the failures |
| `Cache.Cache.Clear` | cache/cache.go:223-234 | All visited keys leave the store unless stuck, which are the failures; none stays visited |
| `Cache.FindAgrees` | cache/cache.go:96-138 | With a store that agrees with the source, a read finds the source's value of every requested key, and none where it has none, whatever was lost |
| `Cache.FindStores` | cache/cache.go:96-138 | What a read stores is the source's and was asked for |
| `Cache.VisitedExactly` | cache/cache.go:96-234 | The visited keys after an operation: Get and Set add theirs, GetAll drops those the source has no value for, Del drops its own and Clear all |
| `Cache.SetExactly` | cache/cache.go:189-208 | A Set keeps the store in agreement with the changed source if and only if every entry it fails to replace holds the new value already |
| `Cache.StepKeeps` | cache/cache.go:96-234 | Every operation keeps stored values the current source's and stored keys visited, where a Set changes the source |
| `Cache.RunKeeps` | cache/cache.go:96-234 | The same over every run with arbitrary losses and a source that Sets change |
| `Cache.CacheAgrees` | cache/cache.go:96-234 | After every run, with a source that Sets change, Get returns the current source over the requested keys in order, GetAll over the visited keys, and Clear empties the store |
| `Cache.SetThenGet` | cache/cache.go:96-208 | A Get after a Set, with no callback and no loss, returns the new value of every key whose value can be sealed, and for the others what it returned before |
| `Cache.GetThenGet` | cache/cache.go:96-138 | A Get stores what it loads: the next Get returns it with no callback |
| `Cache.OnlyMissesLoaded` | cache/cache.go:96-138 | The callback is asked only for what the provider misses |
| `Cache.StuckExactly` | cache/cache.go:210-234 | Stored keys stay visited after Del, and Clear empties the store, if and only if no stored key fails to be deleted |
| `Cache.StuckHappens` | cache/cache.go:210-234 | A run in which a failed Del leaves a key that Clear does not remove |
| `Zk.ListKeys` | kv/zk.go:91-119 | The growing loop ends with the breadth-first list, or fails on a missing key; it terminates |
| `Zk.PrefixGet` | kv/zk.go:91-143 | The keys of the listing with their data |
| `Zk.ListingIsSubtree` | kv/zk.go:91-119 | On a tree, the listing has every node of the subtree once and nothing else |
| `Zk.ListingFailsExactly` | kv/zk.go:91-119 | Listing fails exactly on a missing node and on "/" with children |
| `Zk.StoresAreTrees` | kv/zk.go:91-119 | Every store that creates and deletes can bring about is a tree, the assumption of the results about subtrees |
| `Zk.Pagination.constructor` | kv/zk.go:253-266 | A fresh traversal starts with the root as its only key |
| `Zk.Pagination.MoveCursor` | kv/zk.go:423-449 | The expansion past a given cursor |
| `Zk.SkipExact` | kv/zk.go:423-449 | The expansion ends with a key past the cursor or nothing left to expand, and fails exactly at a parent that does not exist |
| `Zk.Pagination.Read` | kv/zk.go:451-490 | The loop of a page: keys, values, appended children and errors |
| `Zk.Pagination.Next` | kv/zk.go:418-491 | A page after the optional expansion, with its error paths |
| `Zk.TurnKeeps` | kv/zk.go:451-490 | A page advances the breadth-first walk by its size or to the end and delivers what it passes; it fails only where the listing does |
| `Zk.PageFailsAt` | kv/zk.go:451-490 | A failing page stops at the first key that does not exist with what it has read before; a page of keys only has that key too and is past it |
| `Zk.PagesAreListing` | kv/zk.go:411-491 | For pages of any sizes a fresh traversal delivers the listing of prefix Get in order, each node once, and More is false exactly at its end |
| `Zk.PagesFail` | kv/zk.go:411-491 | A traversal of what cannot be listed fails at the latest when the pages exceed the number of nodes |
| `Zk.ResumeExact` | kv/zk.go:423-449 | The pages of a traversal from a cursor, of any sizes large enough together, deliver the rest of the listing if and only if no node between the last expanded parent and the cursor has children |
| `Zk.ResumeDrops` | kv/zk.go:423-449 | A tree of four nodes and a cursor from which the pages never deliver the last |
| `Zk.PrefixDel` | kv/zk.go:198-237 | The delete request is the listing reversed, applied all or nothing |
| `Zk.DescendantsFollow` | kv/zk.go:198-221 | A node comes after all its descendants in the delete request |
| `Zk.DelRemovesSubtree` | kv/zk.go:198-237 | The deletes never meet a node with children, and together remove exactly the subtree |
| `Etcd.Successor` | kv/etcd.go:290-293 | A key is above another if and only if it is at least that key with a zero byte appended |
| `Etcd.RangeIsPrefix` | kv/etcd.go:126-143 | The range from a prefix to its range end is exactly the keys with the prefix |
| `Etcd.Pagination.constructor` | kv/etcd.go:126-150 | Where a traversal starts, with and without a cursor |
| `Etcd.Pagination.Next` | kv/etcd.go:280-305 | A page is the first of what is left, the rest is left, and `more` says whether there is any; an empty start key is an error |
| `Etcd.NextStart` | kv/etcd.go:290-293 | The successor of the last delivered key starts exactly at the rest |
| `Etcd.PagesArePrefix` | kv/etcd.go:126-305 | In pages of any positive sizes a traversal delivers the pairs with the prefix in order, each once, and says there are more until all are delivered |
| `Etcd.ResumeExact` | kv/etcd.go:140-142 | A new traversal from a cursor delivers what was left if and only if no stored key in the range equals the cursor, and otherwise all but that one |
| `Etcd.ResumeDrops` | kv/etcd.go:140-142 | For every key: stored with its successor, the cursor after the first pair loses the second |
| `Scan.NextCursor` | db/candy.go:169-185 | The cursor of the n-th row leaves exactly the rows after it |
| `Scan.Round` | db/candy.go:142-186 | One round hands over a batch, keeps the split into delivered and remaining rows, and ends the scan on the callback or a missing column |
| `Scan.OneQuery` | db/candy.go:142-198 | One iteration: the next query, its batch and the callback, or the end of the scan with its reason |
| `Scan.ScanRows` | db/candy.go:111-198 | For any table, callback, failing queries, batch and limit: it terminates, the batches concatenate to a prefix of the matching rows above the cursor, all of them unless stopped; a failing query, the callback, a missing column or the limit stops it at the first batch they hold for, with an error exactly in the first and third case; and fewer than limit plus batch rows |
| `Duration.LeadingInt` | common/utils/duration.go:190-208 | The value of the leading digits and the rest, an error exactly above 2^63 |
| `Duration.LeadingFraction` | common/utils/duration.go:213-239 | The value and the length of the longest run of leading digits whose value does not exceed 2^63, and the rest after all digits |
| `Duration.ParseDuration` | common/utils/duration.go:53-151 | The parser's loops compute the parse function on every string |
| `Duration.UnitTables` | common/utils/duration.go:24-35 | Products and limits are those of the one unit table |
| `Duration.DivTest` | common/utils/duration.go:124-127 | The division test is exact: the product exceeds 2^63 if and only if it says so |
| `Duration.OneSegment` | common/utils/duration.go:75-143 | A rendered segment with digits before the point, after it or both is read as its number in its unit plus its fraction |
| `Duration.SegmentsOfRender` | common/utils/duration.go:75-143 | On rendered segments, with or without points, the loop is the modular sum of their values |
| `Duration.SummedExact` | common/utils/duration.go:75-143 | The 64-bit sum is the unbounded one, or an error, unless 2^63 meets 2^63 |
| `Duration.ParseExact` | common/utils/duration.go:53-151 | On every signed list of segments, with or without points, outside that case: the signed exact sum when it fits, an error otherwise |
| `Duration.ParseWraps` | common/utils/duration.go:53-151 | In that case everything before counts as nothing, and the result is wrong if and only if it is not an error |
| `Duration.WrapHappens` | common/utils/duration.go:53-151 | A text of two segments of 2^63 nanoseconds is parsed as zero |
| `Duration.AcceptedText` | common/utils/duration.go:53-151 | A text other than a zero is accepted only if it is an optional sign and rendered segments |
| `Duration.ParseZero` | common/utils/duration.go:53-74 | A zero needs no unit, with or without a sign; nothing, or a sign alone, is an error |

## Left out

- WhenAny and WhenAnyMatched: both result channels are closed as soon as registration ends, so the documented outcome does not hold.
- Future.Pipe, SetTimeout, GetOrTimeout and the option filtering in front of whenAllFuture.
- Liveness of allocate and the mutex around pools: only safety is stated.
- MySQL and SETNX locks.
- Duration.LeadingFraction: the value in nanoseconds of a fraction is float64 arithmetic and stays an arbitrary function of its digits and unit; the exactness theorems ask of it only that a fraction is not more than one unit.
- ShardingRefinement.ShardingRefinesOneTable: the fragment has no joins, subqueries, ORDER BY, grouping, CASE, EXISTS or ids generated by the plugin; conditions are conjunctions with an equation on every sharding key, and constants for a key column are written in one form.
- The sharding plugin rewrites syntax trees in place; the model rewrites values, so aliasing between a statement and its parts is not captured.
- Sharding by key expression, by raw value or with a custom suffix; sharding key names containing a percent sign.
- Dal.InsertInBatches: errors of the database itself are not modelled; a batch size that is not positive is excluded because gorm would not advance.
- CRC-32, gob and number encodings, sealing and compression are arbitrary functions; Redis, MongoDB, etcd, ZooKeeper and gorm are modelled by what the code relies on.
- Cache entries that expire count as lost; per-key expiry times and a version that changes between operations are not modelled.
- Cache.Inner: keys are strings; the conversion of other key types to strings and back is not modelled.
- MongoLock.BalancedUnlockDeletes: only an unlock whose two steps follow each other; MongoLock.DeleteExactly is about the others.
- Zk.PagesAreListing: context cancellation, connection errors and a tree that changes during a traversal are not modelled.
- Etcd.Pagination.Next: the same, and versions of values.
- Scan.ScanRows: one integer cursor column; a negative batch size, with which the loop would not end, is excluded.
- HTTP, metrics, logging, configuration, dependency injection and message queues.
