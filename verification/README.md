# Verified model of the key-value store

A Dafny 4.11 model of a TypeScript key-value store that puts one interface over SQLite, Postgres, Redis and
in-memory caches, with proofs about its hardest parts. `dafny verify dfyconfig.toml` checks everything.

What is modelled, one group of modules each:

- **Write-behind batching** (`NumberOrder`, `Keys`, `Window`, `Snapshot`, `Folding`, `FlushMachine`, `FlushRuns`,
  `DrainedRows`, `Settling`, `Holding`, `WriteBatcher`). Operations are folded per key in a window, sorted, and
  written as sets then deletes while new ones arrive. The protocol is a state machine over one first-in-first-out
  log; every synchronous stretch between two awaits is one step. The class `WriteBatcher` has the source's fields
  and takes exactly these steps, so what is proved of every run of the machine holds of the class. Proved: reading
  one's writes through pending, in-flight and store at any point of a half-done flush, the flush barrier,
  progress, exactly-once settlement of every caller, and what each row of the drained store is.
- **Queries** (`Documents`, `Query`, `QueryParser`, `QueryCacheKey`, `SqlCompiler`, `SqlParameters`,
  `SqlMeaning`, `SqlAgreement`, `Finding`). One syntax tree has two meanings: a two-valued interpreter, and SQL in
  three-valued logic with parameters bound by position or by number. Proved: parameters reach their places;
  SQL never contradicts the interpreter on documents whose types suit the query, and exactly when it decides and
  selects as the interpreter accepts; from the query to the rows of a shared table, exactly which rows a `find`
  passes and returns; exactly which queries share a cache key, and when a shared key is sound.
- **Canonical JSON** (`JsonText`, `JsonRoundTrip`, `Arrangement`, `Serializer`, `CanonicalJson`). Texts are
  equal if and only if values are, and the grammar of RFC 8259 reads every text back.
- **Cron** (`Calendar`, `Cron`). The skipping search finds the first matching minute, and fails exactly for
  expressions that never fire.
- **Protocols as steps** (`QueueLeases`, `RedisUpdate`, `LeaseLock`, `RowLocks`). Queue leases, the
  compare-and-swap loop, the lease lock, and ordered row locking, over every interleaving.
- **Storage layout** (`Namespaces`, `RedisScan`, `TieredCache`). Prefix scans through escaped LIKE patterns stay inside
  their namespace; tiers with evictions behave as one expiring map.

Where the code does not do what its documentation promises, the model follows the code, a lemma names an input,
and another lemma says exactly when the promise holds:

- A set without a TTL inherits the TTL of an earlier set of its key in the same window
  (`Window.CoalescingAgainstFifo`), so an overlay read can find a value expired that first-in-first-out
  application would keep (`FlushRuns.ReadYourWrites`), and it keeps columns that a later set of the key would
  replace (`Window.ColumnsAgainstFifo`). These are all that sets the drained store apart
  (`DrainedRows.DrainedRowsAgainstFifo`). The sequential path of schema tables restarts the TTL at
  the flush (`Snapshot.RawTtlRestarts`).
- The comparator that is to rule out deadlocks does so only for some keys. In general, sorted batches can deadlock
  exactly when their keys form a ring (`RowLocks.DeadlocksExactlyWhenRing`). In a text column, which takes numbers
  too, that is exactly when a string among the keys is the text of one of two numbers that stand the other way
  round as texts, or lies between the two (`RowLocks.DeadlocksExactlyWhenTangled`): the keys 2, 10 and "1a"
  (`RowLocks.MixedKeysDeadlock`), or two clients of which one writes 2 and 10 and the other "2" and "10"
  (`RowLocks.TwoSpellingsDeadlock`). In an integer column strings alone can do it (`RowLocks.IntegerColumnDeadlock`).
- The interpreter's promise of full fidelity to the SQL backends fails for `$ne: null`, ranges with text or boolean
  operands, numeric ranges over stored texts and booleans, negations over missing values, values equal across
  types, array lengths, and fields called null (`SqlAgreement`: `NotEqualNullAgreesExactlyWhen`,
  `RangeAgreesExactlyWhen`, `TextIsAboveNumbers`, `NegationAgreesExactlyWhen`, `NegatedMissingIsLost`,
  `SelectsExactlyWhen`, `EqualityAgreesExactlyWhen`, `LengthIsRead`, `PostgresReadsMore`, `NullFieldIsUnread`).
- Two queries that differ in a member named `__proto__` share a cache key
  (`QueryCacheKey.UnassignableNameIsLost`, `QueryCacheKey.KeysAreEqualExactlyWhenSame`), and since the cache is
  asked first, one that the parser would refuse can be answered
  (`QueryCacheKey.AcceptedSharesItsKeyWithRefused`).
- Validation does not keep different table prefixes apart (`Namespaces.SharedPhysicalKey`).
- A prefix with `*`, `?`, `[` or a backslash in it scans the wrong keys on Redis, where it is not escaped
  (`RedisScan.ScanIsPrefixExactlyWhen`).
- A cron range outside its field's limits is accepted and never matches (`Cron.SpanIsEmptyExactlyWhen`). The
  search is announced to stop after five years; its turns, most of which pass over a day or more, reach over 400
  years, so the error for want of a time comes exactly for expressions that never fire (`Cron.GetNextCronTime`,
  `Cron.FiresExactlyWhen`, `Cron.AnswerBeyondFiveYears`). Day of month and day of week must both match, where
  a crontab takes either (`Cron.DiffersFromCrontabExactlyWhen`, `Cron.ListedDaysAreNotAnAsterisk`).
- Settling, heartbeat, re-queue and clean-up calls of the queue write without looking again
  (`QueueLeases.StepKeepsSafeExactlyWhen`, `QueueLeases.LateAckTakesTheJob`).
- A release by a former lock holder cuts the new owner's record to a millisecond
  (`LeaseLock.LateReleaseBreaksTheLock`), and a driver that reads its clock before the record's lets a row go
  before its owner's time is over (`LeaseLock.EarlyLimitBreaksTheLock`).
- A stored text that equals the Redis script's sign for no value can never be updated
  (`RedisUpdate.NilTextIsStuck`); no canonical text does (`RedisUpdate.CanonicalTextIsNotNil`).

Clocks, random tokens, what other clients do between two commands, and the text a database gives a JSON value
that is not a string are parameters: the theorems hold for every choice of them.

## Model

| member | source | states |
|---|---|---|
| `NumberOrder.ValueIsInjective` | `src/core/batcher.ts:120-122` | two numbers of one value are one number, so a difference of 0 means one key |
| `NumberOrder.TextIsInjective` | `src/core/batcher.ts:119-126` | two numbers written alike are one number, so different number keys are different rows |
| `Keys.TotalOnOneKind` | `src/core/batcher.ts:119-126` | on keys of one kind, fractions included, the comparator is a strict total order, with 0 only for equal keys |
| `Keys.TransitiveUnlessTwisted` | `src/core/batcher.ts:119-126` | a chain a < b < c of any keys comes back to c < a if and only if two of them are numbers whose texts stand the other way round with the third, a string, between; otherwise it closes to a < c unless both are written the same |
| `Keys.TotalOnStraight` | `src/core/batcher.ts:119-126` | on any keys with different names, without a string between the texts of two numbers that stand the other way round, the comparator is a strict total order |
| `Keys.OneKindIsStraight` | `src/core/batcher.ts:119-126` | keys that are all numbers, or all strings, are such keys: their names differ and nothing lies between |
| `Keys.OrderIsOfPlaces` | `src/core/batcher.ts:119-126` | unless a string is the text of one of two numbers that stand the other way round as texts, or lies between, keys in order are rows in order, however each row is written |
| `Keys.RowsAreOrdered` | `src/core/batcher.ts:119-126` | the rows of such keys, a number and its text being one row, have a strict total order |
| `Keys.MixedKeysCycle` | `src/core/batcher.ts:119-126` | keys that are not: 2 < 10 < "1a" < 2 |
| `Keys.TwoSpellings` | `src/core/batcher.ts:119-126` | 2 < 10 as numbers and "10" < "2" as strings, the same two rows |
| `Window.CoalescingAgainstFifo` | `src/core/batcher.ts:198-224` | one window folded per key against first-in-first-out application: same presence, same value, and the same expiry if and only if the last set does not inherit an earlier set's TTL |
| `Window.FoldedReadAgainstFifo` | `src/core/batcher.ts:208-213` | a read after the flush answers as after FIFO application, if and only if no inherited TTL has run out |
| `Window.TtlIsInherited` | `src/core/batcher.ts:208-213` | two sets that meet the inheriting case |
| `Window.KeptColumnIsLatest` | `src/core/batcher.ts:203-207` | after folding, a secondary column has the value of the last set since the key's last delete that names it, and is absent if none does |
| `Window.ColumnsAgainstFifo` | `src/core/batcher.ts:203-207` | the folded columns are those of first-in-first-out application if and only if every surviving earlier set's columns are also named by the last set |
| `Snapshot.FireKeepsCaller` | `src/core/batcher.ts:261-264` | wrapping a resolver when a set is overtaken by a delete keeps whose promise it settles, and hides the boolean from it |
| `Snapshot.IdsOnce` | `src/core/batcher.ts:188-238` | each call of a window is attached to exactly one key, once |
| `Snapshot.SortPermutes` | `src/core/batcher.ts:405-410` | sorting the snapshot keeps every entry |
| `Snapshot.SortAscends` | `src/core/batcher.ts:405-410` | on keys of one kind the flushed batch is in ascending key order |
| `Snapshot.PlanMembers` | `src/core/batcher.ts:422-437` | every entry of the batch is written and nothing else is, as sets then deletes in the folded mode and in order in the sequential mode |
| `Snapshot.FlushMeansFold` | `src/core/table.ts:328-388` | sets then deletes of a sorted, folded window give at every key what folding the window means, from any store |
| `Snapshot.SequentialFlushIsFifo` | `src/core/table.ts:298-326` | without coalescing the flush is first-in-first-out application |
| `Snapshot.FlushTouchesOnlyNames` | `src/core/table.ts:328-388` | a flush cut off after any number of writes has changed no key outside the batch |
| `Snapshot.RawTtlRestarts` | `src/core/table.ts:194-205` | passing the TTL unreduced, as the sequential path of schema tables does, keeps the deadline if and only if the write happens at the enqueue time; the reduced TTL always keeps it |
| `Folding.MergeSetFolds` | `src/core/batcher.ts:200-215` | merging a set into the pending entry of its key keeps the entry equal to the fold of the window: kind, value, columns, TTL and every caller once |
| `Folding.NewSetFolds` | `src/core/batcher.ts:216-224` | a new entry for a set is the fold of its window |
| `Folding.MergeDeleteFolds` | `src/core/batcher.ts:254-270` | likewise merging a delete, over a set and over a delete |
| `Folding.NewDeleteFolds` | `src/core/batcher.ts:271-279` | likewise a new entry for a delete |
| `Folding.ReplaceFolds` | `src/core/batcher.ts:198-224` | rewriting one entry in place keeps the whole buffer a fold of the whole window |
| `Folding.AppendFolds` | `src/core/batcher.ts:216-224` | so does appending the entry of a new key |
| `Folding.ReorderFolds` | `src/core/batcher.ts:406-409` | so does any permutation of the entries, as the sort makes one |
| `Folding.CountFolded` | `src/core/batcher.ts:332-334` | the number of buffered entries is the number of distinct keys in the window |
| `FlushMachine.StepKeepsProgress` | `src/core/batcher.ts:343-394` | every step keeps: the settled point never passes the enqueued point, a flush in progress reaches beyond the settled point, pending work has a timer or a flush, and each waiting flush call is at most two handler runs from its target |
| `FlushRuns.StepKeepsInv` | `src/core/batcher.ts:343-485` | every step of calls, timers, handler writes, handler ends and woken flush loops keeps the whole invariant, including that the store is the flush-time store with part of the in-flight batch written |
| `FlushRuns.InvariantAlways` | `src/core/batcher.ts:343-485` | hence the invariant holds in every reachable state |
| `FlushRuns.FlushBarrier` | `src/core/batcher.ts:370-394` | in every reachable state: a flush() that has returned has its target settled, it has gone around its loop at most twice, and once two handler runs have ended since the call everything enqueued before it is settled |
| `FlushRuns.NextTurnSuffices` | `src/core/batcher.ts:384-393` | a woken flush loop either returns or waits for a run that covers its target |
| `FlushRuns.UnsettledWorkCanMove` | `src/core/batcher.ts:470-485` | while anything is unsettled, a handler run can end or the timer can fire, and firing starts a run that covers everything |
| `FlushRuns.SettlementIsFinal` | `src/core/batcher.ts:452-468` | no step takes back a settlement: the settled prefix and the verdict of each of its operations only grow |
| `FlushRuns.DrainedStoreIsFifo` | `src/core/batcher.ts:396-486` | when all is settled and every run succeeded, the store holds the values of FIFO application of every operation ever enqueued |
| `DrainedRows.RowsAlways` | `src/core/batcher.ts:396-486` | in every reachable state whose runs all succeeded, each row at flush start is what the window that settled its key's last operation means, value, columns and expiry; where TTLs are passed on unchanged, it is that operation's with its time running from a write |
| `DrainedRows.DrainedRowsAgainstFifo` | `src/core/batcher.ts:396-486` | when all is settled and every run succeeded, rows are present as in FIFO application of every operation ever enqueued, with the same value; the expiry is the same if and only if that window inherited no TTL, the columns if and only if it inherited none; where TTLs are passed on unchanged, columns are the same, and the expiry if and only if there is none or the write came at the time of the call |
| `FlushRuns.OverlayRead` | `src/core/table.ts:780-838` | what pending, then in-flight, then driver answer, in any state whose store holds part of the in-flight batch |
| `FlushRuns.ReadYourWrites` | `src/core/table.ts:780-838` | in every reachable state, both modes: the overlay read equals lookup in (store at flush start, in-flight operations, pending operations applied in FIFO order), if and only if no TTL inherited in the answering window has run out |
| `Settling.SettleAllIds` | `src/core/batcher.ts:452-466` | the promises settled for a batch are those of its callers, resolved or rejected alike |
| `Settling.FoldedWaitsOnce` | `src/core/batcher.ts:200-224` | in a folded window every caller waits in exactly one entry, exactly once, through any set-delete-set rewriting |
| `Settling.ListedWaitsOnce` | `src/core/batcher.ts:225-234` | likewise in the sequential list |
| `Settling.FoldedPairs` | `src/core/batcher.ts:214-215` | resolver and rejecter lists stay paired by caller |
| `Settling.ResultFitsCall` | `src/core/batcher.ts:452-460` | on success a delete call gets a boolean and a set call does not |
| `Settling.SettleNext` | `src/core/batcher.ts:439-468` | exactly-once settlement over the history: after each batch every settled operation has been settled once, resolved if and only if its batch's handler succeeded |
| `Holding.PutHolds` | `src/core/batcher.ts:199-224` | the keyed map after buffering one operation stands for the window with that operation |
| `Holding.PlanWrites` | `src/core/table.ts:328-388` | the whole plan of a batch, written, is what the batch means for the store |
| `Holding.RawRows` | `src/core/table.ts:194-205` | a plan that passes TTLs on unchanged leaves at each key the row of its last operation, its time running from the write |
| `Holding.PartialPlan` | `src/core/table.ts:328-388` | any prefix of the plan leaves only keys of the batch changed |
| `Holding.ReadAnswers` | `src/core/table.ts:780-806` | reading an entry of the buffer answers as its operations do, expiry included |
| `Holding.InFlightAnswers` | `src/core/batcher.ts:415-420` | the in-flight map gives the last entry of a name |
| `WriteBehind.WriteBatcher.constructor` | `src/core/batcher.ts:168-177` | an empty buffer, matching the empty run; the batch size is at least 1 |
| `WriteBehind.WriteBatcher.Enqueue` | `src/core/batcher.ts:188-237` | takes the step of a set call in the run; the caller's promise has the operation's number |
| `WriteBehind.WriteBatcher.EnqueueDelete` | `src/core/batcher.ts:248-291` | takes the step of a delete call |
| `WriteBehind.WriteBatcher.BufferSet` | `src/core/batcher.ts:198-235` | after merging, the buffer stands for the window with the set appended, in both modes |
| `WriteBehind.WriteBatcher.BufferDelete` | `src/core/batcher.ts:251-288` | likewise for a delete |
| `WriteBehind.WriteBatcher.TimerFired` | `src/core/batcher.ts:347-351` | takes the timer's step |
| `WriteBehind.WriteBatcher.Flush` | `src/core/batcher.ts:370-394` | takes the step of a flush call up to its first wait |
| `WriteBehind.WriteBatcher.WakeWaiter` | `src/core/batcher.ts:384-393` | takes one more turn of a waiting flush loop |
| `WriteBehind.WriteBatcher.TakeSnapshot` | `src/core/batcher.ts:405-413` | the emptied buffer's snapshot stands for the whole pending window |
| `WriteBehind.WriteBatcher.BuildInFlight` | `src/core/batcher.ts:415-420` | the in-flight map of a snapshot |
| `WriteBehind.WriteBatcher.SplitPayload` | `src/core/batcher.ts:422-437` | sets and deletes of a snapshot, in order |
| `WriteBehind.WriteBatcher.HandlerStarts` | `src/core/table.ts:298-338` | the handler reads the clock once and lays out the batch's whole plan |
| `WriteBehind.WriteBatcher.HandlerWritesSome` | `src/core/table.ts:328-388` | the handler performs some more of its writes: the store is the flush-time store with a longer prefix of the plan |
| `WriteBehind.WriteBatcher.HandlerEnds` | `src/core/batcher.ts:439-486` | settles every caller of the batch with its verdict, clears the in-flight state, and re-arms a timer or flush for what has accumulated |
| `WriteBehind.WriteBatcher.TellCallers` | `src/core/batcher.ts:452-466` | the settling loops settle exactly the snapshot's callers |
| `WriteBehind.WriteBatcher.GetPending` | `src/core/batcher.ts:308-319` | finds an entry if and only if the pending window names the key, and that entry answers for the key |
| `WriteBehind.WriteBatcher.GetInFlight` | `src/core/batcher.ts:325-327` | likewise for the in-flight batch |
| `WriteBehind.WriteBatcher.Read` | `src/core/table.ts:780-838` | the overlay read returns what the state machine shows as visible |
| `Query.ExtractValue` | `src/query/evaluator.ts:55-87` | the loop over the segments reads what the recursive definition of a path says |
| `Query.IsEqual` | `src/query/evaluator.ts:123-146` | the loops over elements and keys decide equality with members in any order |
| `SqlCompiler.BindAll` | `src/query/compiler.ts:101-105` | a list of operands gets consecutive placeholders and is appended in order |
| `SqlCompiler.CompileCompare` | `src/query/compiler.ts:88-120` | a comparison's text, what it appends to the shared list, and its errors |
| `SqlCompiler.Combine` | `src/query/compiler.ts:78-86` | children are compiled left to right onto one list; the first failing child fails the whole |
| `SqlCompiler.Walk` | `src/query/compiler.ts:52-76` | a query's text and appended parameters, for any list it starts from |
| `SqlParameters.MarksInOrder` | `src/query/compiler.ts:122-126` | left to right the placeholders stand for positions n, n+1, ..., one for each appended parameter |
| `SqlParameters.CompiledQueryCloses` | `src/query/compiler.ts:39-43` | wherever the text stands in a statement, binding its parameters, positionally or by number, puts every operand back in its place |
| `SqlParameters.SameError` | `src/query/compiler.ts:52-120` | a query fails to compile with the same error whatever is already in the list |
| `SqlParameters.SqliteFinds` | `src/drivers/sqlite/sqlite-driver.ts:262-282` | SQLite's statement, its `?` filled left to right, is the one asked for: expiry time, query, prefix pattern, limit, offset |
| `SqlParameters.PostgresFinds` | `src/drivers/postgres/postgres-driver.ts:336-350` | Postgres's statement with its numbered parameters is the one asked for |
| `SqlParameters.AssembleSqlite` | `src/drivers/sqlite/sqlite-driver.ts:262-282` | clause by clause, the text and the parameter list |
| `SqlParameters.AssemblePostgres` | `src/drivers/postgres/postgres-driver.ts:336-350` | likewise, numbers taken from the growing list |
| `SqlParameters.FindSqlite` | `src/drivers/sqlite/sqlite-driver.ts:262-282` | compiling and assembling end to end, or the query's own error |
| `SqlParameters.FindPostgres` | `src/drivers/postgres/postgres-driver.ts:336-350` | likewise for Postgres: both dialects close to the same request |
| `SqlMeaning.AlignedReadsTheSame` | `src/query/evaluator.ts:55-87` | a database and the interpreter read the same value at a path if and only if the path does not end in an array's length and, in Postgres, neither an index on an object nor a negative number on an array leads to a value |
| `SqlMeaning.RegularIsAligned` | `src/drivers/sqlite/dialect.ts:54-60` | they agree whenever keys meet objects and indices meet arrays |
| `SqlAgreement.AtomIsItsTruth` | `src/query/compiler.ts:88-120` | compiling, closing and evaluating a comparison comes to reading its path and comparing, for both dialects |
| `SqlAgreement.EqualityIsKept` | `src/drivers/postgres/dialect.ts:27-61` | a stored value and an operand of comparable types are equal in SQL if and only if they are equal, undecided when the cast gives NULL |
| `SqlAgreement.MembershipIsKept` | `src/query/compiler.ts:95-107` | IN is true if some item equals the value, otherwise undecided if the left side or an item is NULL, otherwise false |
| `SqlAgreement.AtomAgrees` | `src/query/evaluator.ts:89-121` | a suitable comparison that SQL decides is decided as by the interpreter |
| `SqlAgreement.SqlUnderApproximates` | `src/query/evaluator.ts:9-35` | under any nesting of and, or, nor and not: SQL true implies the interpreter accepts, SQL false implies it rejects, both dialects, every suitable document |
| `SqlAgreement.UndecidedExactlyWhen` | `src/query/compiler.ts:88-120` | a suitable comparison is undecided if and only if the value is missing or of another type than the operand, or a null in its list leaves it open |
| `SqlAgreement.AnsweredExactlyWhen` | `src/query/evaluator.ts:89-121` | a suitable comparison selects the accepted rows if and only if it is not `$in` with a null over a missing value, nor `$nin` over a value that is not known or left open by a null |
| `SqlAgreement.DecidedExactlyWhenSettled` | `src/query/compiler.ts:52-76` | under any nesting, a query is decided if and only if it settles: an `$and` through one settled child that rejects or through all, an `$or` and a `$nor` through one settled child that accepts or through all, a `$not` through its child, a comparison by value and operand alone |
| `SqlAgreement.SelectsExactlyWhen` | `src/query/evaluator.ts:9-35` | a suitable row is selected as it is accepted, if and only if the interpreter rejects it or the query settles on it |
| `SqlAgreement.PositiveSettles` | `src/query/compiler.ts:52-76` | what a query without `$not`, `$nor`, `$nin` and null list items accepts, it settles |
| `SqlAgreement.PositiveQueriesSelectExactly` | `src/query/evaluator.ts:9-35` | without `$not`, `$nor`, `$nin` and null list items the selected rows are the accepted ones |
| `SqlAgreement.NegationAgreesExactlyWhen` | `src/query/compiler.ts:60-63` | a negation of any suitable query selects the accepted rows if and only if the interpreter accepts the child or the child settles |
| `SqlAgreement.NegatedMissingIsLost` | `src/query/compiler.ts:60-63` | over a missing value, `$not` of an equality is undecided in both databases although the interpreter accepts |
| `SqlAgreement.NotEqualNullAgreesExactlyWhen` | `src/query/compiler.ts:111-114` | `$ne: null` selects as the interpreter accepts if and only if nothing is stored at the path |
| `SqlAgreement.RangeAgreesExactlyWhen` | `src/query/evaluator.ts:103-110` | a range with any scalar over any stored value selects as the interpreter accepts if and only if the database sees no order where the interpreter sees none, spelt out for each dialect and pair of types |
| `SqlAgreement.TextIsAboveNumbers` | `src/drivers/sqlite/dialect.ts:19-45` | a stored text is above every number in SQLite, undecided in Postgres, and nothing to the interpreter |
| `SqlAgreement.EqualityAgreesExactlyWhen` | `src/drivers/sqlite/dialect.ts:19-45` | equality with any scalar on any document agrees if and only if the value is not taken for the operand across types (1 and true in SQLite, text forms) |
| `SqlAgreement.LengthIsRead` | `src/query/evaluator.ts:71-75` | `length` of an array exists for the interpreter and not for the databases |
| `SqlAgreement.PostgresReadsMore` | `src/drivers/postgres/dialect.ts:89-93` | Postgres counts a segment -1 from the array's end and reads an index as an object's key |
| `SqlAgreement.NullFieldIsUnread` | `src/drivers/postgres/dialect.ts:89-93` | a field called null is SQL NULL in Postgres's unquoted path array, so `$eq: null` selects the row whatever the field holds |
| `QueryParser.PathsAreParsed` | `src/query/parser.ts:41-58` | a parsed path is not empty and its digit-only segments are indices |
| `QueryParser.ParseField` | `src/query/parser.ts:201-227` | the loop over the operators yields the field's node or the first error |
| `QueryParser.CollectsAll` | `src/query/parser.ts:71-72` | a list of subqueries parses if and only if each does, to the same nodes in order |
| `QueryCacheKey.SameOperandsCompareAlike` | `src/query/evaluator.ts:89-121` | every operator gives the same answer for equal operands |
| `QueryCacheKey.WhereAlike` | `src/query/parser.ts:61-72` | equal where-documents, members in any order at every level, both fail to parse or parse to filters that accept the same documents |
| `QueryCacheKey.KeysAreEqualExactlyWhenSame` | `src/core/table.ts:1614-1626` | any two queries share a cache key if and only if they are equal as values once members named __proto__ are left out at every level, whatever order the engine lists names in |
| `QueryCacheKey.KeyForgetsExactlyTheUnassignable` | `src/core/table.ts:1618-1626` | a query shares its key with what is left of it, which is an equal query if and only if nothing in it is named __proto__ |
| `QueryCacheKey.CacheKeyIsSound` | `src/core/table.ts:1166-1175` | queries that share a key and ask the same are both malformed or accept the same documents; they ask the same if neither `where` has a member named __proto__, and do not if just one of them has |
| `QueryCacheKey.AcceptedSharesItsKeyWithRefused` | `src/query/parser.ts:65-69` | every query the parser takes that has a `where` shares its key with one the parser refuses, which has __proto__ at the top of its `where` |
| `QueryCacheKey.KeyStandsForFilterExactlyWhenNothingIsAsked` | `src/core/table.ts:1166-1175` | of the queries the parser takes, a key stands for one filter among all queries that share it if and only if the query has no `where` |
| `QueryCacheKey.UnassignableNameIsLost` | `src/core/table.ts:1618-1626` | an operand member named __proto__ is lost from the key |
| `QueryCacheKey.UnassignableNameMatters` | `src/query/parser.ts:201-205` | and the two queries that then share the key accept different documents |
| `Namespaces.PatternMatchesPrefix` | `src/drivers/sqlite/sqlite-driver.ts:936-939` | a key matches the escaped prefix followed by % if and only if it starts with the prefix, wildcards and backslashes included |
| `Namespaces.UserKeyComesBack` | `src/core/key.ts:40-50` | toUserKey inverts toPhysicalKey on legal scopes, and illegal scopes are refused by both |
| `Namespaces.SharedPhysicalKey` | `src/core/key.ts:33-42` | two legal scopes share a physical key if and only if prefix and namespace run together to one text and the user keys are equal |
| `Namespaces.TablePrefixesCollide` | `src/core/key.ts:24-37` | two different legal scopes that share every physical key |
| `Namespaces.PrefixStaysInNamespace` | `src/core/key.ts:53-55` | under one table prefix a physical prefix reaches a key if and only if the namespace is its own and the user key starts with the user prefix |
| `Namespaces.PrefixDeleteIsIsolated` | `src/drivers/sqlite/sqlite-driver.ts:258-260` | a prefix delete removes exactly the named namespace's keys with the prefix, in every namespace's view of the table |
| `Namespaces.PrefixScanIsIsolated` | `src/drivers/sqlite/sqlite-driver.ts:250-256` | a prefix scan, mapped back, lists exactly the live rows of the namespace with the prefix |
| `RedisScan.ScanIsPrefixExactlyWhen` | `src/drivers/redis/redis-driver.ts:258-261` | a Redis scan finds the keys with the prefix and no others if and only if the prefix has none of * ? [ and backslash: it goes into the pattern unescaped |
| `RedisScan.WildcardDisagrees` | `src/drivers/redis/redis-driver.ts:258-261` | for each prefix that starts with one of the four, a key on which pattern and prefix disagree |
| `RedisScan.PlainPatternMatchesPrefix` | `src/drivers/redis/redis-driver.ts:258-261` | without wildcards the pattern matches a key if and only if it starts with the prefix |
| `Finding.FindIsExact` | `src/core/table.ts:1204-1207` | from the query to the rows: the statement a driver sends, its parameters bound, passes a row of the shared table if and only if it is of the asked namespace, alive, accepted by the interpreter, and the query settles on it, either dialect, whenever comparisons suit the document |
| `Finding.FindReturnsExactly` | `src/drivers/sqlite/sqlite-driver.ts:262-298` | in whatever order the database lists the rows, it returns the page that limit and offset ask for, of exactly the wanted rows on which the query settles |
| `Finding.BackendsFindTheSame` | `src/drivers/redis/redis-driver.ts:294-348` | a positive query passes the same rows in SQLite, in Postgres, and filtered in memory as on Redis |
| `Finding.BackendsReturnTheSame` | `src/drivers/redis/redis-driver.ts:294-348` | rows listed alike, a positive query returns the same page from SQLite, from Postgres and from memory |
| `Finding.PagesCover` | `src/drivers/redis/redis-driver.ts:331-337` | pages of one length, one after the other, list the rows, each once and in order |
| `Cron.ParseField` | `src/schedule/cron-parser.ts:22-63` | the loops fill exactly the set the parts stand for; otherwise the error is that of the first invalid part |
| `Cron.AddSteps` | `src/schedule/cron-parser.ts:31-52` | a stepping loop adds exactly the numbers of its grid |
| `Cron.SpanIsEmptyExactlyWhen` | `src/schedule/cron-parser.ts:45-52` | an accepted range stands for nothing if and only if it lies outside the field's limits; its steps count from the clamped start |
| `Cron.ParseCronExpression` | `src/schedule/cron-parser.ts:65-92` | the five sets match a minute if and only if the five fields do, day 7 of the week being day 0 |
| `Cron.Search` | `src/schedule/cron-parser.ts:111-142` | finds the first matching minute from its start despite skipping months, days and hours; failing means that no minute at all matches, before or after, as the allowed turns cover more than 400 years |
| `Cron.GetNextCronTime` | `src/schedule/cron-parser.ts:98-145` | the returned time is after the input, matches all five fields, and no earlier minute after the input matches; it throws for want of a time if and only if the expression never fires |
| `Cron.FiresExactlyWhen` | `src/schedule/cron-parser.ts:65-92` | some minute matches if and only if no field is empty and some named month is long enough, when longest, for some named day |
| `Cron.AnswerBeyondFiveYears` | `src/schedule/cron-parser.ts:107-109` | midnight on a Monday the 29th of February: from the start of 1970 the answer is in 1988, more than 15 years on |
| `Cron.DiffersFromCrontabExactlyWhen` | `src/schedule/cron-parser.ts:120-127` | requiring both day fields means something else than a crontab, of POSIX or of the common kinds, if and only if there is a time of day, both alternatives are written as other than an asterisk, and some date meets just one of them |
| `Cron.ListedDaysAreNotAnAsterisk` | `src/schedule/cron-parser.ts:120-127` | `0 0 1-31 * 1` is every midnight in any crontab and midnight on Mondays here |
| `Calendar.JanuaryIsDayFromYear` | `src/schedule/cron-parser.ts:101-104` | counting month by month gives the closed day formula of the ECMAScript specification, for every year |
| `Calendar.MonthIsUnique` | `src/schedule/cron-parser.ts:112-113` | no day lies in two months |
| `Calendar.PartsNameTheMinute` | `src/schedule/cron-parser.ts:112-134` | month, day, weekday, hour and minute stay in range and together give the minute back |
| `Calendar.DateRepeats` | `src/schedule/cron-parser.ts:112-121` | dates repeat after 146097 days, weekdays included |
| `Calendar.DateOccursExactlyWhen` | `src/schedule/cron-parser.ts:112-121` | month, day and weekday occur together if and only if the month, when longest, has that day |
| `Calendar.MonthSkip` | `src/schedule/cron-parser.ts:113-118` | up to the next month's first midnight the month stays |
| `Calendar.DaySkip` | `src/schedule/cron-parser.ts:122-127` | up to the next midnight day and weekday stay |
| `Calendar.HourSkip` | `src/schedule/cron-parser.ts:129-134` | up to the next full hour the hour stays |
| `Serializer.CanonicalizeItems` | `src/core/serializer.ts:100-114` | the array loop writes the text of the array of its elements, undefined ones as null, or the first error with its path |
| `Serializer.CanonicalizeMembers` | `src/core/serializer.ts:122-138` | the member loop writes the sorted members, reserved names and undefined values left out, or the first error with its path |
| `Serializer.Canonicalize` | `src/core/serializer.ts:62-142` | the text of the tree a value becomes, or its error; on success the path stack is as it was |
| `Serializer.Serialize` | `src/core/serializer.ts:31-33` | the same from the root |
| `Serializer.ResultIsWritable` | `src/core/serializer.ts:74-81` | whatever serializes is a tree that has a JSON text |
| `Serializer.CodeUnitOrderIsStrictTotal` | `src/core/serializer.ts:122-122` | the order of sorted keys is strict and total |
| `JsonRoundTrip.NumberReadsBack` | `src/core/serializer.ts:74-81` | each of the four shapes of a number's text is read back as that number |
| `JsonRoundTrip.BodyReadsBack` | `src/core/serializer.ts:72-72` | an escaped string is read back, control characters and quotes included |
| `JsonRoundTrip.ValueReadsBack` | `src/core/serializer.ts:31-42` | reading a text that starts with a value's text yields the value and leaves the rest |
| `JsonRoundTrip.TextReadsBack` | `src/core/serializer.ts:31-42` | the grammar of sections 2 to 7 of RFC 8259 recovers every value from its text |
| `JsonRoundTrip.TextIsUnique` | `src/core/serializer.ts:1-6` | two ordered trees have one text if and only if they are one tree |
| `Arrangement.ArrangedAlikeExactlyWhenSame` | `src/core/serializer.ts:122-138` | arranging members in any strict total order makes two values alike if and only if they are equal, members in any order |
| `Arrangement.ArrangedAlikeExactlyWhenSameWithout` | `src/core/serializer.ts:122-138` | for all values: leaving out names and arranging makes two values alike if and only if they are equal once the names are left out at every level |
| `Arrangement.AscendingIsUnique` | `src/core/serializer.ts:122-138` | a sorted member list is determined by what it looks up |
| `Arrangement.SameIsAnEquivalence` | `src/query/evaluator.ts:123-146` | the one-sided equality of the interpreter is symmetric and transitive |
| `CanonicalJson.JsonBecomesItself` | `src/core/serializer.ts:62-142` | a JSON value serializes to its canonical form, or is too deep |
| `CanonicalJson.HasTextExactlyWhenShallow` | `src/core/serializer.ts:67-69` | a JSON value has a text if and only if it opens at most 64 containers at once |
| `CanonicalJson.TextsAreEqualExactlyWhenSame` | `src/core/serializer.ts:31-33` | two values have one text if and only if they are equal, members in any order and reserved names left out at every level |
| `CanonicalJson.StoredTextReadsBack` | `src/core/serializer.ts:36-42` | whatever a program serializes, deserializing its text gives the value the text stands for |
| `CanonicalJson.JsonComesBack` | `src/core/serializer.ts:31-42` | a stored JSON value comes back equal to what was stored less its reserved names, hence equal if and only if it has none |
| `CanonicalJson.ArrangingTwice` | `src/core/serializer.ts:3-6` | the canonical form is its own canonical form |
| `QueueLeases.StepKeepsSafeExactlyWhen` | `src/queue/queue.ts:196-376` | from a state where every live lease is backed by its record, a step leads to such a state if and only if it is harmless; which writes are harmless is stated per operation |
| `QueueLeases.ClaimKeepsSafe` | `src/queue/queue.ts:219-244` | a claim with a stale clock reading never takes a job with a live lease |
| `QueueLeases.SettlingKeepsSafeExactlyWhen` | `src/queue/queue.ts:266-353` | a late ack or nack write is harmless if and only if no other worker holds the job |
| `QueueLeases.BeatKeepsSafeExactlyWhen` | `src/queue/queue.ts:358-376` | a late heartbeat write is harmless if and only if it shortens no other lease and revives none the record has given away |
| `QueueLeases.RetryKeepsSafeExactlyWhen` | `src/queue/queue.ts:417-432` | a late re-queue write is harmless if and only if no worker holds the job |
| `QueueLeases.CleanKeepsSafeExactlyWhen` | `src/queue/queue.ts:454-481` | a late clean-up is harmless if and only if no worker holds one of its jobs |
| `QueueLeases.PushKeepsSafeExactlyWhen` | `src/queue/queue.ts:88-121` | pushing under an existing id is harmless if and only if no worker holds that job |
| `QueueLeases.StepKeepsInv` | `src/queue/queue.ts:196-376` | every harmless step keeps the full invariant |
| `QueueLeases.DisciplinedIsHarmless` | `src/queue/queue.ts:266-376` | a settling call that writes while its own lease is live, and the like for the others, is harmless |
| `QueueLeases.InvariantAlways` | `src/queue/queue.ts:196-376` | the invariant holds over every disciplined run of any number of workers |
| `QueueLeases.LeasesAreExclusive` | `src/queue/queue.ts:196-376` | at most one live lease per job, and the record of a live lease is active with that worker's token |
| `QueueLeases.LiveLeaseIsRespected` | `src/queue/queue.ts:224-232` | while a lease is live its own ack and nack are heard, whenever they read the clock, and no other claim succeeds |
| `QueueLeases.LateAckTakesTheJob` | `src/queue/queue.ts:266-296` | a run in which a late ack completes a job under another worker's live lease |
| `QueueLeases.RejectedJobReturns` | `src/queue/queue.ts:301-353` | a rejected job is ready again exactly from the backoff time on, or failed for good once its attempts are used up |
| `QueueLeases.BackoffDoubles` | `src/queue/queue.ts:610-615` | each further attempt doubles the wait |
| `QueueLeases.Queue.Claim` | `src/queue/queue.ts:219-244` | the atomic update claims if and only if the record is claimable, and changes nothing else |
| `QueueLeases.Queue.Pop` | `src/queue/queue.ts:214-261` | leases the first candidate that can still be claimed; none if none can |
| `QueueLeases.Queue.Acknowledge` | `src/queue/queue.ts:266-296` | completes or removes the job of the token's holder; otherwise false or an error and no change |
| `QueueLeases.Queue.Reject` | `src/queue/queue.ts:301-353` | retries with backoff or puts the job with the failed ones |
| `QueueLeases.Queue.Beat` | `src/queue/queue.ts:358-376` | extends the lease of the token's holder |
| `RedisUpdate.SwapsExactlyWhenUnchanged` | `src/drivers/redis/redis-driver.ts:24-42` | the script swaps if and only if the key still holds what was expected; it stores, stores with a limit, or deletes, as the TTL says |
| `RedisUpdate.CanonicalTextIsNotNil` | `src/drivers/redis/redis-driver.ts:27-28` | the sign for no value is no canonical JSON text |
| `RedisUpdate.NilTextIsStuck` | `src/drivers/redis/redis-driver.ts:27-30` | if that text is stored all the same, every update of it conflicts |
| `RedisUpdate.Redis.Eval` | `src/drivers/redis/redis-driver.ts:24-42` | the script step on the server |
| `RedisUpdate.Redis.Update` | `src/drivers/redis/redis-driver.ts:355-401` | commits at the first of 50 attempts that finds the value as last seen, writing the mutator's answer to it; gives up if and only if each attempt found another value, and then has no effect |
| `RedisUpdate.UpdatesLoseNothing` | `src/drivers/redis/redis-driver.ts:355-401` | in every run of updaters, plain sets, deletes and expiries: a committed update wrote its mutator's answer to the value immediately before it, commits once, and one that gave up never did |
| `RedisUpdate.FailedAttemptHasNoEffect` | `src/drivers/redis/redis-driver.ts:355-401` | an attempt that does not commit leaves the key as it is |
| `RedisUpdate.IncrementsAddUp` | `src/drivers/redis/redis-driver.ts:355-401` | k committed increments add exactly k |
| `LeaseLock.ReleaseKeepsSafeExactlyWhen` | `src/lock/lock.ts:68-89` | a release, whenever its client read the clock, keeps the lock exclusive if and only if no other unexpired handle outlasts the millisecond it leaves |
| `LeaseLock.TakingKeepsSafeExactlyWhen` | `src/lock/lock.ts:40-56` | an acquisition or extension keeps the lock exclusive if and only if it fails, gives no time, or gives the row a limit not before the record's |
| `LeaseLock.StepKeepsSafeExactlyWhen` | `src/lock/lock.ts:26-115` | a step keeps the lock exclusive if and only if it is harmless in that sense |
| `LeaseLock.LockIsExclusive` | `src/lock/lock.ts:26-115` | in every run in which recorded owners release and rows last as long as their records say, no two handles are unexpired at one time |
| `LeaseLock.OwnershipIsRespected` | `src/lock/lock.ts:40-56` | nobody acquires while a handle is unexpired; extending after a takeover fails for good and leaves the new owner's record unchanged |
| `LeaseLock.LateReleaseBreaksTheLock` | `src/lock/lock.ts:68-89` | a run in which a late release by a former holder lets a third client in beside the owner |
| `LeaseLock.EarlyLimitBreaksTheLock` | `src/drivers/postgres/postgres-driver.ts:177-194` | a driver that reads the clock for the row's limit before the record's: a run in which another client acquires in the owner's last millisecond |
| `LeaseLock.LockManager.AcquireLock` | `src/lock/lock.ts:26-140` | takes the first moment at which the lock is free; gives up only after the time to wait, having found it held every time |
| `LeaseLock.LockHandle.Release` | `src/lock/lock.ts:68-89` | works once; rewrites the row with one millisecond whoever owns it |
| `LeaseLock.LockHandle.Extend` | `src/lock/lock.ts:91-115` | succeeds if and only if the handle is active and the record is its own |
| `RowLocks.Chunks` | `src/drivers/postgres/postgres-driver.ts:229-268` | the statements' rows, one after the other, are the sorted rows: one ascending sweep however many chunks of 200 |
| `RowLocks.SortedBatchesAreProper` | `src/drivers/postgres/postgres-driver.ts:576-636` | sorted batches over such keys of a text column satisfy what follows |
| `RowLocks.NoWaitCycle` | `src/core/batcher.ts:115-126` | over such keys, one row addressed as a number or as a string, no chain of waiting transactions, of any length, comes back to where it began |
| `RowLocks.SomeTransactionCanStep` | `src/drivers/postgres/postgres-driver.ts:229-268` | over such keys, while a transaction is unfinished one can take its next lock or commit |
| `RowLocks.AllFinish` | `src/drivers/postgres/postgres-driver.ts:229-268` | over such keys, from any state there is a way for all transactions to finish, within the locks and commits that remain |
| `RowLocks.StepKeepsExclusive` | `src/drivers/postgres/postgres-driver.ts:229-268` | no row is ever locked by two transactions |
| `RowLocks.StuckHasRing` | `src/drivers/postgres/postgres-driver.ts:576-636` | whatever the key column and the keys, a state in which nobody can go on has a ring: pairs of keys in comparator order, each leading from a row to the next, back to the first |
| `RowLocks.RingOfBatches` | `src/drivers/postgres/postgres-driver.ts:576-636` | the pairs of any ring, as batches of two, have a run from the start into such a state |
| `RowLocks.DeadlocksExactlyWhenRing` | `src/core/batcher.ts:115-126` | for every key column and every set of keys: some sorted batches can deadlock if and only if the keys have a ring |
| `RowLocks.DeadlocksExactlyWhenTangled` | `src/core/batcher.ts:115-126` | in a text column, for every set of keys, some sorted batches can deadlock if and only if a string among the keys is the text of one of two numbers that stand the other way round as texts, or lies between the two |
| `RowLocks.SameRingsIfKeptApart` | `src/drivers/postgres/postgres-driver.ts:444-444` | any column that keeps the texts of the keys apart deadlocks for the same keys as a text column |
| `RowLocks.OneKindNeverDeadlocks` | `src/drivers/postgres/postgres-driver.ts:229-268` | so a text column whose keys are all numbers, or all strings, never deadlocks |
| `RowLocks.MixedKeysDeadlock` | `src/core/batcher.ts:119-126` | but one with the keys 2, 10 and "1a" can |
| `RowLocks.TwoSpellingsDeadlock` | `src/drivers/postgres/postgres-driver.ts:576-636` | and so can the sorted batches [2, 10] and ["10", "2"], each of one kind |
| `RowLocks.IntegerColumnDeadlock` | `src/drivers/postgres/postgres-driver.ts:444-444` | an integer column reads "02" and "2" as one row, and there the sorted batches ["02", "1"] and ["1", "2"] can |
| `TieredCache.CopyExpiresWithOriginalExactlyWhen` | `src/cache/cache.ts:185-191` | a backfilled copy expires with the original if and only if the original is still alive at the copy's clock reading |
| `TieredCache.LastTierMayDropExactlyWhenDead` | `src/cache/cache.ts:173-182` | an eviction from the last tier goes unnoticed if and only if the entry was dead |
| `TieredCache.TimeKeepsRepresents` | `src/core/expiry.ts:15-22` | the passing of time breaks no tier's agreement with the map |
| `TieredCache.NewCache` | `src/cache/cache.ts:80-88` | a cache without stores is refused, any other stands for the empty map |
| `TieredCache.Cache.Get` | `src/cache/cache.ts:90-93` | returns what one expiring map returns |
| `TieredCache.Cache.ReadRaw` | `src/cache/cache.ts:173-182` | the first live entry across the tiers is the map's live entry, whichever tiers have been evicted |
| `TieredCache.Cache.Backfill` | `src/cache/cache.ts:185-191` | every tier above the hit gets an entry equal to it, expiry included |
| `TieredCache.Cache.Set` | `src/cache/cache.ts:95-104` | all tiers and the map take the value and its deadline; no value is a delete |
| `TieredCache.Cache.Delete` | `src/cache/cache.ts:106-109` | all tiers and the map lose the key; true at least if it was alive |
| `TieredCache.Cache.DeleteByPrefix` | `src/cache/cache.ts:111-136` | all tiers and the map lose the keys with the prefix |
| `TieredCache.Cache.Evict` | `src/cache/cache.ts:173-182` | a tier before the last may drop an entry at any time |

## Left out

- `clear()` of the batcher while a flush is active, a handler that throws before its first await, and several
  enqueues that wait for room together and overshoot the buffer bound.
- Which of several failing runs a particular `flush()` call rethrows, as it depends on the order in which
  callbacks run; each caller's own rejection is modelled.
- Boolean results of coalesced deletes differ from first-in-first-out results by design; only that deletes get a
  boolean and sets do not is stated.
- Aliasing between the entry that `getPending` returns and the buffer; entries are values in the model.
- WriteBehind.WriteBatcher.constructor: the wait and the size bound are parameters of the steps, not fields.
- WriteBehind.WriteBatcher.Enqueue: the flush that makes room in a full buffer is left to the caller.
- WriteBehind.WriteBatcher.EnqueueDelete: likewise.
- WriteBehind.WriteBatcher.HandlerStarts: one clock reading serves a batch, where the source reads it for each
  item.
- WriteBehind.WriteBatcher.Read: the buffers and the driver are read in one step, and the table's point cache is
  absent, as are soft deletes, hooks and metrics around reads and flushes.
- FlushRuns.DrainedStoreIsFifo: speaks of values; DrainedRows has columns and expiry.
- The library's sort is modelled as a stable insertion sort in the batcher, and by its contract elsewhere.
- Strings are sequences of Unicode scalar values, so lone surrogates are absent and `<` compares scalar values
  rather than UTF-16 code units.
- Numbers, record keys among them, are finite doubles given by their shortest decimal form; the rounding that
  produces that form is the engine's. Negative zero is zero.
- Query.ExtractValue: leaves out paths of kind column and negative indices in hand-built trees.
- Finding.BackendsFindTheSame: the limit of 10,000 keys at which a Redis scan stops is absent.
- Sorting of query results: the order in which a backend lists rows is a parameter. The MySQL dialect.
  `$elemMatch` is interpreted and parsed, and refused by the SQL compiler, as in the source.
- A `$in` list whose items Postgres would have to convert, or an operand it or SQLite cannot bind, makes the
  database refuse the statement; the model gives such a comparison no truth value.
- The order of texts in SQL is by scalar value; a database may use another collation. Only equality enters the
  theorems about suitable documents.
- QueryCacheKey.CacheKeyIsSound: for two queries that both ask under an unassignable name, whether they accept the
  same documents depends on what they ask; only that equal ones do is stated.
- The where-parser with known columns; limit, offset and sort of a cached query are covered by the key being the
  value, not evaluated.
- Serializer.Canonicalize: cyclic and shared objects (`seen`) and the text of error messages are left out; a path
  is kept as its steps.
- Serializer.Serialize: likewise.
- Duplicate names in a text to be read, which serialization never writes.
- Cron.ParseField: starts from the parts of a field; splitting, aliases and number parsing come before the model.
- Cron.ParseCronExpression: starts from the five fields, likewise.
- Cron.GetNextCronTime: the offset from UTC is fixed, in whole minutes, and dates have no range limit.
- QueueLeases.Queue.Pop: the candidate query is a parameter; claims are modelled for any job, which covers every
  answer of it. Scheduling of recurring jobs, statistics, and clean-up of states other than completed and failed
  are left out.
- LeaseLock.LockManager.AcquireLock: the moments of the retries are parameters, and the heartbeat timer is left
  out; an extension can be any step.
- The clock of the queue and of the lock is one clock for all clients; a queue call may have read it any time
  before it reads the record.
- Redis: connection errors, batch operations, and the server's bound on nested stars in a pattern.
- Row locks under a text that an integer column refuses: the statement fails. Row locks of updates and deletes of
  several rows, whose order the database chooses, and rows that do not exist yet; atomic updates are assumed as
  the driver contract states them.
- The tiered cache's `wrap` with background refresh, `clear`, and operations that overlap in time.
- Drivers' connections, table definitions, prepared statements, blob chunks, schema evolution, pub/sub, rate
  limits, idempotency and decorators would only add members that say little.
