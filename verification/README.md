# A verified model of the SQL server's core

The server keeps tables as chains of immutable versions, indexes each version with B+ trees,
answers repeated queries from a versioned cache, hands reads to a pool of database workers, and
talks HTTP, JSON, SQL and CSV at its edges. This project models those parts and proves what they
promise. `dafny verify dfyconfig.toml` checks all of it.

The modules, from the bottom up:

| part | modules |
|---|---|
| shared definitions, texts and numbers | Basics, Text, TextRules |
| B+ trees: values, memory layout, the code in place, a stale order | BTreeSpec, BTreeLayout, BTreeHeap, StaleOrder |
| tables: meaning of statements, index choice, writes, the code in place, what conditions and statements mean | EngineSpec, SelectSpec, WriteSpec, Engine, Conditions, StatementRules |
| table versions: the step system, whole runs, the loops, constraints, indexes, history | Versions, VersionRuns, Db, Commits, IndexRuns, ChainRules, History |
| query cache: the hash table, the protocol, how they fit, when it hits | QueryCache, CacheProtocol, CacheRefines, CacheHits |
| worker pools: the queue, whole runs, requests that wait on it, how long | Pool, PoolRuns, PoolRefines, Requests, QueryJobs, JobDelay |
| codecs and framing | Csv, CsvText, LoadedTables, Sql, SqlReader, SqlSpelling, SqlText, Json, JsonText, Http, HttpRuns |

Concurrency is a step system: every step is one critical section of the source, and a run is any
interleaving of them. Code that works in place is a class or a method with loops, proved against
a function whose properties are proved beside it. What these functions mean is said once more
without them, of the texts, rows, bytes and histories themselves: TextRules, Conditions,
StatementRules, ChainRules, History, CacheHits, CsvText, LoadedTables, SqlText, JsonText and
HttpRuns. How predicates are compared with `true`, and why
some functions choose their value, is explained at the top of Basics.dfy.

## Model

| member | source | states |
|---|---|---|
| `VersionRuns.StepInv` | src/db/dbapi.c:919-984 | every step (load, snapshot, begin, view, write, commit, abort, release, stat, prune) keeps the invariant: chains descend, hold the serial data of their versions and everything a live snapshot or transaction needs |
| `VersionRuns.HeadsAreSerial` | src/db/dbapi.c:1304-1335 | no lost update: in every state of every run a table's head is the loaded table with the statements of all committed transactions applied one after another in version order |
| `VersionRuns.CommitIffUnchanged` | src/db/dbapi.c:1310-1316 | a commit passes its check if and only if no version newer than the transaction's snapshot wrote a table the transaction wrote |
| `VersionRuns.SnapshotIsConsistent` | src/db/dbapi.c:919-926 | a live snapshot finds a version of every loaded table, with exactly the commits up to its id |
| `VersionRuns.SnapshotStable` | src/db/dbapi.c:1192-1223 | from acquisition to release a snapshot sees the same version at the same address, across any commits, aborts and pruning |
| `VersionRuns.HistoryGrows` | src/db/mvcc.c:64-72 | commits only append to the history, and version numbers never go back |
| `VersionRuns.PruneHarmlessIff` | src/db/dbapi.c:1192-1223 | a prune with a keep id read earlier leaves every live snapshot its version if and only if the id is positive or no live snapshot looks below the head of a longer chain |
| `VersionRuns.StatThenPruneSafe` | src/db/dbapi.c:1212-1223 | reading the snapshot set and pruning in one go always meets that condition |
| `VersionRuns.StaleZeroExample` | src/db/dbapi.c:1218-1222 | a run from the start in which a stale keep id of 0 takes the only version an open snapshot could see |
| `ChainRules.SeesNewest` | src/db/dbapi.c:919-926 | a snapshot sees the version with the greatest id not above its own, if there is one |
| `ChainRules.PruneLeaves` | src/db/dbapi.c:1192-1210 | a prune with a positive keep id leaves a version if and only if no newer one has an id up to the keep id; with 0 it leaves the head alone |
| `ChainRules.PruneLeavesOne` | src/db/dbapi.c:1192-1210 | so at most one version with an id up to the keep id is left |
| `History.CommitLogsIssued` | src/db/dbapi.c:1304-1335 | in every run a commit adds to the history exactly the statements its transaction issued since it began, table by table and in order, and no other step adds anything |
| `History.SeesOwnWrites` | src/db/dbapi.c:937-984 | every statement works on the table as the transaction's snapshot sees it with the transaction's own earlier statements applied |
| `Db.Mvcc.Snap` | src/db/mvcc.c:43-62 | adds the current version to the snapshot list |
| `Db.Mvcc.Gc` | src/db/mvcc.c:74-86 | removes one occurrence of an id and no other |
| `Db.Mvcc.Stat` | src/db/mvcc.c:15-24 | the least id of the list, or the current version when it is empty |
| `Db.Database.TabVis` | src/db/dbapi.c:919-926 | the walk down a chain stops at the first version not newer than the snapshot |
| `Db.Database.GcTabs` | src/db/dbapi.c:1212-1223 | every chain is cut behind the first version not newer than the oldest snapshot, or behind its head when there is none |
| `Db.Database.Commit` | src/db/dbapi.c:1304-1335 | it succeeds exactly when every written table's head is still the base; then one new version number, and a new head on the chains of the written tables only |
| `Db.CheckRefines` | src/db/dbapi.c:1310-1316 | the check of the commit loop is the guard of the commit step |
| `Db.CommitRefines` | src/db/dbapi.c:1317-1328 | the loops of a commit carry out the commit step at fresh addresses |
| `Commits.VersionsKeepConstraints` | src/db/dbapi.c:992-1141 | in every run whose writes are safe, every version in every chain keeps unique PKs, unique non-empty UKs, filled NN columns and ids below the next one, if the loaded tables do; a write is safe unless it is a succeeding INSERT whose id field, once trimmed, holds no number, one in use, or one not below the next id |
| `Commits.OnlySafeWritesKeep` | src/db/dbapi.c:992-1141 | and only then: if all versions and private copies of a run keep them, its writes were safe |
| `IndexRuns.ExecExact` | src/db/dbapi.c:992-1141 | on a version whose trees hold its rows, a statement that succeeds leaves such a version if and only if its id field, if it gives one, reads the same before and after it is trimmed |
| `IndexRuns.VersionsKeepIndexes` | src/db/dbapi.c:658-720 | in every run with such writes the PK tree and the UK trees of every version of every table hold exactly its rows |
| `BTreeSpec.InsertRefines` | src/legacy/bptree.c:345-438 | insertion refines ordered insertion for every tree, key and order: sorted nodes, left < separator <= right, equal depth; a duplicate is reported exactly when the key is stored |
| `BTreeSpec.DeleteRefines` | src/legacy/bptree.c:440-461 | lazy deletion keeps the tree well-formed, stale separators and empty leaves included, and removes exactly its key |
| `BTreeSpec.SeparatorBeforeShift` | src/legacy/bptree.c:802-894 | the separator copied before the shift is the first key of the right leaf after it, and above every key of the left leaf |
| `BTreeSpec.HeightIsLogarithmic` | src/legacy/bptree.c:38-62 | an insert-only tree of order m and height h >= 2 holds at least 2 * (m/2)^(h-2) * (m/2 - 1) keys |
| `BTreeSpec.InsertFilled` | src/legacy/bptree.c:357-414 | insertion keeps every node but the root at least half full |
| `BTreeSpec.PutAllSorted` | src/legacy/bptree.c:191-282 | inserting an increasing sequence pair by pair gives what a bulk build of it gives |
| `BTreeSpec.VisitsPrefix` | src/legacy/bptree.c:304-327 | a scan shows a prefix of the range, each pair once and in order, and all of it unless the visitor stops |
| `BTreeSpec.OrderChange` | src/legacy/bptree.c:191-282 | a tree is well-formed for another order if and only if its nodes have room for that order |
| `BTreeSpec.StaleOrderExample` | src/legacy/bptree.c:191-210 | a leaf of ten keys that is well-formed at order 32 and not at order 8 |
| `StaleOrder.NoRightIff` | src/legacy/bptree.c:351-414 | an insertion copies into a right node that was never made if and only if the key is new and the first node from its leaf up that is not exactly full has too many keys for the order |
| `StaleOrder.CourseIsInsert` | src/legacy/bptree.c:351-414 | in a tree that fits its order the insertion reports a duplicate, fits or splits as the tree function says |
| `StaleOrder.RejectedBuild` | src/legacy/bptree.c:191-210 | ten insertions and a rejected build, after which every insertion of a new key takes that course |
| `StaleOrder.OrderSteps` | src/legacy/bptree.c:38-50 | the order of a tree is the least of 8, 16, 32 and 64 that is enough, and goes up at 4096, 65536 and 262144 pairs in a bulk build |
| `BTreeLayout.ChildShiftInBounds` | src/legacy/bptree.c:393-414 | the child shift, one slot longer than needed, stays in the node exactly when the node has at most 62 keys |
| `BTreeHeap.BPlusTree.InsertPair` | src/legacy/bptree.c:345-438 | the insertion in place, splits and leaf chain included: 0 exactly on a duplicate, else the new pair and nothing else changes; the minimum fill is kept |
| `BTreeHeap.BPlusTree.Search` | src/legacy/bptree.c:284-302 | finds a key exactly when the map has it, with its row, after any builds, inserts and deletes, rejected builds included |
| `BTreeHeap.BPlusTree.RangeSearch` | src/legacy/bptree.c:304-327 | walking the leaf chain visits the pairs of [start, end] in order until the visitor stops |
| `BTreeHeap.BPlusTree.DeleteKey` | src/legacy/bptree.c:440-461 | removes the key from the map and nothing else, and says whether it was there |
| `BTreeHeap.BPlusTree.BuildFromSorted` | src/legacy/bptree.c:191-282 | succeeds exactly on a strictly increasing sequence, which is then the contents; otherwise the old contents stay in place and only the order changes |
| `Text.RankOrder` | src/db/dbapi.c:203-228 | texts compare as their ranks do, so a tree over ranks is a tree over texts |
| `TextRules.TrimBare` | src/db/dbapi.c:181-201 | trimming takes the whitespace around a value and nothing else |
| `TextRules.TrimQuoted` | src/db/dbapi.c:181-201 | and then one pair of quotes, inside which everything stays |
| `TextRules.SpaceIs` | src/db/dbapi.c:187-189 | whitespace is space, tab, newline, vertical tab, form feed and carriage return |
| `TextRules.NormIs` | src/db/dbapi.c:203-208 | normalising trims what fits in the buffer |
| `TextRules.NumberReads` | src/db/dbapi.c:230-240 | a sign and digits with whitespace around them are read as their decimal value, or as no number when that is out of the range of a long |
| `TextRules.ValuePush` | src/db/dbapi.c:230-240 | one more digit makes ten times the value and that digit |
| `TextRules.OnlyNumbersRead` | src/db/dbapi.c:230-240 | nothing else is read as a number |
| `Conditions.LessIff` | src/db/dbapi.c:210-228 | one text comes before another if and only if it is a proper prefix of it or has the smaller character where they first differ |
| `Conditions.MatchesIff` | src/db/dbapi.c:356-387 | a row matches if and only if for every condition the first column of its name holds: for equality, the same text after normalising; for BETWEEN on the PK, three numbers in order; for any other BETWEEN, a text neither before the lower nor after the upper bound |
| `Conditions.EndsMatch` | src/db/dbapi.c:219-228 | both bounds of a range that is not empty match |
| `Conditions.PathChosen` | src/db/dbapi.c:438-462 | the first PK equality chooses the path, else the first UK equality, else the first PK range, else the first UK range; the statement is refused exactly when a value for the PK tree is no number |
| `Conditions.NothingServed` | src/db/dbapi.c:438-462 | without any of these all rows are scanned |
| `SelectSpec.IndexEqualsScan` | src/db/dbapi.c:464-555 | the rows of an index path are the rows a full scan keeps if and only if the path misses no matching row |
| `SelectSpec.NothingMissed` | src/db/dbapi.c:464-555 | nothing is missed when PK texts have at most 255 bytes and the UK value or lower bound is not empty |
| `SelectSpec.UkMissesEmpty` | src/db/dbapi.c:658-685 | on a UK path a row is missed if and only if it matches and its UK is empty |
| `SelectSpec.UkMissExample` | src/db/dbapi.c:464-555 | a table with one row and a BETWEEN that it matches, which the UK path misses |
| `SelectSpec.PkReaches` | src/db/dbapi.c:230-240 | the PK path reaches a matching row if and only if the first 255 bytes of its PK read as the whole text does |
| `Engine.Table.Select` | src/db/dbapi.c:464-555 | fails exactly on an unknown column or a bound that is no number; else every matching row the path reaches, once, in key order for BETWEEN and row order otherwise, with the selected cells |
| `Engine.Table.IdxBuild` | src/db/dbapi.c:658-685 | succeeds if and only if PKs are numbers and no key occurs twice; then the trees hold the rows |
| `Engine.Table.Insert` | src/db/dbapi.c:992-1045 | succeeds exactly when there is room, the fields make a row and its keys are free; then one row is added, and rows and trees agree if and only if the id field reads the same before and after trimming; rows and next id are those of the statement's meaning |
| `Engine.Table.Update` | src/db/dbapi.c:1047-1098 | succeeds exactly when the column may be set and the updated rows keep their keys unique, whether the check or the rebuild finds the clash; then exactly the matching rows are set |
| `Engine.Table.Delete` | src/db/dbapi.c:1100-1141 | succeeds exactly when there is a condition; then the rows that do not match are left, in order, and the trees agree with them |
| `StatementRules.IndexableIff` | src/db/dbapi.c:658-685 | a table can be indexed if and only if its PKs are different numbers and no two rows have the same text, unless empty, in a UK column |
| `StatementRules.InsertTakenIff` | src/db/dbapi.c:992-1045 | an INSERT succeeds if and only if there is room, the fields are as many as the columns or one fewer when the first is the PK, the id is left out, empty, NULL or a number, NN columns get something, and the id and the UK texts are free |
| `StatementRules.InsertedRow` | src/db/dbapi.c:607-656 | one row is added at the end; every cell is its own field trimmed, one column further on when the id is left out; an id not given is the next one, and the next id stays above |
| `StatementRules.InsertedValues` | src/db/dbapi.c:242-262 | values joined by commas, each plain or in quotes, are the cells of the new row in their order |
| `StatementRules.FifteenFields` | src/db/dbapi.c:242-262 | what follows the 14th field is one field, whatever it holds |
| `StatementRules.UpdateTakenIff` | src/db/dbapi.c:1047-1098 | an UPDATE succeeds if and only if it has conditions, its column is known, is not the PK and may hold the value, and the keys of the updated rows are apart |
| `StatementRules.UpdatedRows` | src/db/dbapi.c:1047-1098 | exactly the rows the conditions ask for have the named column set to the value trimmed to 255 characters, and nothing else is changed |
| `StatementRules.DeletedRows` | src/db/dbapi.c:1100-1141 | a DELETE succeeds if and only if it has conditions, and leaves exactly the rows they do not ask for, in order |
| `WriteSpec.ExecKeeps` | src/db/dbapi.c:1143-1150 | a statement that succeeds on a table with unique PKs and UKs, filled NN columns and ids below the next one keeps all that if and only if it gives no id, or one that after trimming is a number, free, and below the next id |
| `WriteSpec.RunKeeps` | src/db/dbapi.c:1467-1517 | so does any sequence of statements that all meet this condition |
| `WriteSpec.RunKeepsOnly` | src/db/dbapi.c:1467-1517 | and all tables on the way keep their constraints only if every statement met it |
| `WriteSpec.LongIdBreaks` | src/db/dbapi.c:607-656 | an INSERT of 254 spaces and 12 succeeds where 1 is free, and breaks the constraints where 12 is in use or the next id is at most 12 |
| `WriteSpec.LongIdTables` | src/db/dbapi.c:607-656 | such tables: the empty one, and one that holds 12 and gets it twice |
| `WriteSpec.AutoIdFresh` | src/db/dbapi.c:607-656 | on a table whose ids are all below the next one, an automatic id is not in use |
| `WriteSpec.DeleteIndexable` | src/db/dbapi.c:1100-1141 | the rebuild after a DELETE never fails |
| `WriteSpec.LateClash` | src/db/dbapi.c:1047-1098 | several rows given one new UK value pass the check, and only the rebuild finds the clash |
| `WriteSpec.NewRowKeyIff` | src/db/dbapi.c:607-656 | a new row is indexed under the number its PK column holds if and only if its id field reads the same before and after trimming |
| `WriteSpec.ShortIdReads` | src/db/dbapi.c:230-240 | an id field of at most 255 bytes always does |
| `WriteSpec.LongIdInsert` | src/db/dbapi.c:203-240 | an INSERT that is accepted and indexed under 1 while its row holds 12 |
| `CacheProtocol.HitIsLinearizable` | src/api/route.c:699-750 | in every run the body of a hit is the query's answer on a version that was the table's head at some moment between the request's version read and its lookup |
| `CacheProtocol.MissIsLinearizable` | src/api/route.c:699-750 | the same for the answer computed after a miss, though it is stored under the earlier version |
| `CacheRefines.LookupIsStep` | src/api/cache/query_cache.c:236-283 | a lookup is a step of the protocol: a hit, or at most one eviction and a miss |
| `CacheRefines.StoreIsStep` | src/api/cache/query_cache.c:287-338 | a store is at most one eviction and then the store step |
| `QueryCache.Cache.Lookup` | src/api/cache/query_cache.c:236-283 | over bucket chains and LRU links: the entry of the key if it is of this version and has not expired, else the reason of the miss; a stale entry is removed |
| `QueryCache.Cache.Store` | src/api/cache/query_cache.c:287-338 | the key leads to the new item, and at most one other key is thrown out |
| `QueryCache.HitIsLastStored` | src/api/cache/query_cache.c:251-283 | after any lookups and stores a hit returns the body of the last accepted store under its key, made for the same version and not expired |
| `CacheHits.LookupByHistory` | src/api/cache/query_cache.c:236-283 | a lookup hits if and only if the last accepted store under its key was for this version, has not expired, and was not followed by an eviction of the key or by a late or outdated lookup of it; otherwise the reason is that no store is left, that it expired, or that it was for another version, in this order |
| `CacheHits.StoreThenHit` | src/api/cache/query_cache.c:236-338 | after any history, a store followed at once by a lookup before it expires hits |
| `CacheHits.StoreAndLookup` | src/api/cache/query_cache.c:236-338 | on the cache itself, a store followed by a lookup of the same version before the lifetime is over hits with its body |
| `CacheHits.NotStored` | src/api/cache/query_cache.c:287-300 | an empty key, or a body over 262144 bytes, is not stored |
| `QueryCache.PlayTracked` | src/api/cache/query_cache.c:96-168 | every reachable cache holds at most 1024 keys, each once in the order of use |
| `QueryCache.Cache.ContentsTracked` | src/api/cache/query_cache.c:96-188 | the same of every cache object in a valid state |
| `QueryCache.UnlinkForgets` | src/api/cache/query_cache.c:117-130 | unlinking an entry that is not linked loses the head and tail of the list |
| `QueryCache.EvictsTheNewest` | src/api/cache/query_cache.c:133-168 | a store into a full cache throws out exactly the most recently used key |
| `QueryCache.SecondReplacesFirst` | src/api/cache/query_cache.c:153-168 | so of two new keys stored into a full cache only the second stays |
| `QueryCache.FullCacheExample` | src/api/cache/query_cache.c:287-338 | 1025 stores from an empty cache, after which the first key is still there and the 1024th is not |
| `PoolRuns.JobsConserved` | src/thr/pool.c:34-64 | in every state of every run accepted = queued + active + done, within the limits, jobs start in the order accepted and each is in hand or finished, once |
| `PoolRuns.NothingAfterStop` | src/thr/pool.c:93-147 | nothing is accepted after the stop |
| `PoolRuns.JoinedPoolIsEmpty` | src/thr/pool.c:101-119 | once all workers have left, the queue is empty and every accepted job is finished: the freeing loop finds nothing |
| `PoolRuns.UnfinishedHasStep` | src/thr/pool.c:44-61 | no lost wake-up: while an accepted job is unfinished, some worker can step |
| `PoolRuns.WorkDecreases` | src/thr/pool.c:34-64 | worker steps use up the work, so the pool comes to rest |
| `PoolRuns.RestIsDone` | src/thr/pool.c:34-64 | at rest every accepted job is finished, and a stopped pool's workers have all left |
| `Pool.JobPool.Add` | src/thr/pool.c:121-147 | the linked queue takes the job at its end, or refuses it exactly when stopped or full |
| `Pool.JobPool.Take` | src/thr/pool.c:44-55 | the first job leaves the linked queue |
| `PoolRefines.AddIsStep` | src/thr/pool.c:121-147 | adding to the linked queue is the add step of the pool |
| `PoolRefines.TakeIsStep` | src/thr/pool.c:44-55 | taking from it is the worker's step |
| `PoolRefines.FinishIsStep` | src/thr/pool.c:56-61 | counting a job as done is the worker's step after it |
| `Requests.Batch` | src/api/route.c:810-832 | jobs are sent in order, every job sent is waited for, whether or not one is refused, and only then is the snapshot released |
| `Requests.Page` | src/api/route.c:993-1030 | the same when jobs go out in groups |
| `QueryJobs.JobsReadOpenSnapshots` | src/api/route.c:87-108 | in every run of requests, workers and the database, a queued or running job finds its snapshot open and the version it needs in every chain |
| `QueryJobs.AllDoneAtClose` | src/api/route.c:104-108 | when a request releases its snapshot, every job it sent has set its flag |
| `QueryJobs.BlockedHasStep` | src/api/route.c:104-108 | while a request is blocked, some database worker can step |
| `QueryJobs.LeftDecreases` | src/api/route.c:87-101 | every worker step uses up work, so between two submissions the workers take only so many steps |
| `JobDelay.DelayFalls` | src/thr/pool.c:34-64 | every job has a delay that no step of any request, worker or transaction raises, and that every worker step lowers while the job is queued |
| `JobDelay.StartsWithin` | src/thr/pool.c:34-64 | within as many worker steps as its delay a job is running or done, whatever else is submitted meanwhile |
| `JobDelay.HeldUntilDone` | src/api/route.c:87-101 | from then on the same worker has it, and can set its flag, until the flag is set |
| `JobDelay.BlockedGetsCloser` | src/api/route.c:104-108 | while a request is blocked, some worker can take a step that lowers the delay of the job it waits for |
| `Csv.HeaderInArray` | src/db/dbapi.c:735-769 | loading a header stays in the five slots of uk_idx if and only if at most five columns are tagged (UK) |
| `Csv.SixUksOverrun` | src/db/dbapi.c:753-756 | a header with six, which does not |
| `Csv.ReadCols` | src/db/dbapi.c:735-769 | the loop over the fields of a header in bounds gives its columns, its last PK column and its UK columns in order |
| `Csv.SaveLoad` | src/db/dbapi.c:735-879 | loading a saved table of at most five UK columns stays in bounds and gives back its schema and rows, for values without quotes and line ends, tight unless they have commas, on lines that are not empty and fit |
| `Csv.SaveTable` | src/db/dbapi.c:843-879 | the loops write that text |
| `Csv.LoadTable` | src/db/dbapi.c:802-841 | the loop over lines of limited length reads that table, or fails on a row that does not fit |
| `CsvText.TagsLoad` | src/db/dbapi.c:735-769 | name(PK), name(UK) and name(NN) are read as a PK, a UK and an NN column of that name, and a name alone as a plain one |
| `CsvText.FirstTagCounts` | src/db/dbapi.c:750-760 | of several tags in one field (PK) comes before (UK), wherever it stands |
| `CsvText.NameIsCut` | src/db/dbapi.c:744-749 | a column is named by what stands before the first parenthesis, up to 49 characters |
| `CsvText.SavedAs` | src/db/dbapi.c:852-870 | a column is written as its name with that tag, and a value in quotes if and only if it has a comma |
| `CsvText.SavedLines` | src/db/dbapi.c:852-870 | the line of the columns, then one line for each row |
| `CsvText.UsersLoad` | src/db/dbapi.c:735-769 | the header id(PK),email(UK),name(NN),age has its first column as PK and its second as the only UK |
| `CsvText.RowLoads` | src/db/dbapi.c:771-800 | a row line is refused if and only if it has another number of fields than columns or a PK that is no number; else its cells are its fields trimmed |
| `CsvText.LineEnds` | src/db/dbapi.c:825-826 | a line ends at its first carriage return or newline |
| `CsvText.ReadTakes` | src/db/dbapi.c:824-826 | one read takes a line with its newline, or one byte less than the buffer holds |
| `LoadedTables.LoadedSchema` | src/db/dbapi.c:735-769 | a header in bounds is a schema: the last PK column, and the UK columns in order |
| `LoadedTables.LoadedRows` | src/db/dbapi.c:771-800 | every loaded row has a cell for each column and a number as its PK |
| `LoadedTables.NextId` | src/db/dbapi.c:790-797 | the next id is above every id, and is 1 or follows one of them |
| `LoadedTables.LoadedConstraints` | src/db/dbapi.c:802-841 | a loaded table whose index is built keeps its constraints if and only if its NN columns are filled, which loading does not check |
| `Sql.ParseIff` | src/legacy/parser.c:21-220 | a text is read as a SELECT, UPDATE or DELETE if and only if its tokens, to the end of the text, are those of that statement |
| `Sql.InsertIff` | src/legacy/parser.c:90-179 | a text is read as an INSERT if and only if it is INSERT INTO table VALUES ( row ) with balanced quotes and only whitespace after the closing parenthesis |
| `Sql.TokensParse` | src/legacy/parser.c:226-242 | the tokens of a statement, in whatever text they are found, are read as that statement |
| `SqlSpelling.SpellingIsFree` | src/legacy/lexer.c:21-102 | a SELECT, UPDATE or DELETE is read the same however it is spaced, in whatever case its keywords are, and with its values quoted or, where they are single words and no keywords, bare |
| `Sql.PrintParse` | src/legacy/parser.c:38-88 | parsing undoes printing for every statement whose parts fit their fields, with up to 8 conditions |
| `Sql.InsertParse` | src/legacy/parser.c:150-179 | parsing undoes printing for INSERT |
| `SqlText.TextParses` | src/legacy/parser.c:111-242 | each statement is read back from its SQL text, written out letter by letter: SELECT * or names FROM table, INSERT INTO table VALUES (row), UPDATE table SET column = 'value', DELETE FROM table, with WHERE, =, BETWEEN and AND |
| `SqlText.ParsedIsShort` | src/legacy/parser.c:26-88 | nothing is ever read with more than 8 conditions or 15 columns, a column name of 50 characters, a value of 256 or a row text of 1024 |
| `SqlText.MarkSkipped` | src/legacy/lexer.c:7-15 | a byte order mark in front makes no difference |
| `SqlText.NumberIsOneToken` | src/legacy/lexer.c:21-102 | digits and dots after a digit are one token, as 3.5 is |
| `SqlText.ThreeAndAHalf` | src/legacy/lexer.c:21-102 | 3.5 is such a number |
| `SqlReader.ParseStatement` | src/legacy/parser.c:226-242 | the lexer and parser as they run read that statement, or none |
| `Json.ScanPrinted` | src/api/route.c:232-267 | scanning a printed string followed by any text stops right after its closing quote |
| `Json.ReturnedIff` | src/api/resp.c:70-91 | the string comes back unchanged if and only if its only control characters are newline, carriage return and tab |
| `Json.Buf.Jsn` | src/api/resp.c:70-91 | the growable buffer gets the printed string at its end |
| `Json.ScanStr` | src/api/route.c:232-267 | the two loops find the closing quote and decode what is before it, or fail exactly when there is none |
| `JsonText.EscIs` | src/api/resp.c:70-91 | the escape of every character, written out |
| `JsonText.NoControls` | src/api/resp.c:70-91 | a printed string has no control characters |
| `JsonText.DecodeIs` | src/api/route.c:252-261 | the scan undoes the short escapes and takes any other escaped character as it is |
| `Http.Conn.EnsureBuffered` | src/api/srv.c:103-136 | reads of any size until the target is buffered; the buffer and what is still to come make up the stream, within the limit |
| `Http.Conn.ReadHeader` | src/api/srv.c:153-163 | finds the header end of the stream, whatever the reads; near the limit it depends on the reads, and how |
| `Http.Conn.ParseReq` | src/api/srv.c:138-220 | gives the first request of the stream and leaves the rest, or its error code; only in the gap near the limit may it answer 413 instead |
| `Http.Conn.Serve` | src/api/srv.c:249-316 | for every way the stream is cut into reads, the same requests and the same final code |
| `HttpRuns.FrameSent` | src/api/srv.c:138-220 | a stream that starts with a header block, a blank line and the body it announces gives that request, head and body, and leaves what follows |
| `HttpRuns.SessionSent` | src/api/srv.c:249-316 | requests sent one after another come out in their order |
| `HttpRuns.Refusals` | src/api/srv.c:166-196 | 413 for a body announced over the limit, 400 for a header block that cannot be read or a stream that ends inside the body |
| `HttpRuns.NoHeader` | src/api/srv.c:153-159 | without a blank line 413 from 8192 bytes on and 400 below, but 0 for an empty closed stream |
| `HttpRuns.LongHeader` | src/api/srv.c:161-162 | a header block of more than 8192 bytes is refused with 413 |
| `HttpRuns.ServeSent` | src/api/srv.c:249-316 | over a connection that hands over pieces of any size the server gets exactly the requests sent, each with its own body |
| `HttpRuns.ServeUntilClose` | src/api/srv.c:249-316 | up to the first that asks to close, whatever follows it |

## Findings

Properties one would expect and the code does not have, each with the exact condition under which
it does:

- Pruning with an old keep id of 0 can take a version an open snapshot needs
  (`StaleZeroExample`); `PruneHarmlessIff` gives the condition. Runs in the other results take
  only prune steps that meet it, which every positive keep id does.
- A rejected bulk build changes the order of the tree it leaves in place (`StaleOrderExample`).
  Searches, scans and deletions do not notice; an insertion copies into a node that was never made
  exactly under the condition of `NoRightIff`, as at the end of `RejectedBuild`.
- The child shift of an internal insertion moves one slot too many, and leaves the node exactly
  when it has 63 keys (`ChildShiftInBounds`), which takes order 64.
- Unlinking an entry that is not in the LRU list empties the list, so the cache evicts its newest
  entry (`UnlinkForgets`, `EvictsTheNewest`), where docs/ARCHITECTURE_PSEUDOCODE_KO.md describes
  LRU replacement.
- A header block whose blank line ends at byte 8193 to 8196 may be accepted or refused, depending
  on the sizes of the reads (`Conn.ReadHeader`).
- `\u` escapes are printed and not decoded (`ReturnedIff`).
- Empty UK values are not indexed, so a UK path misses rows that have them (`UkMissesEmpty`).
- A PK field of over 255 bytes can be indexed under another number than the row holds
  (`LongIdInsert`, `NewRowKeyIff`), and a PK path can miss such a row (`PkReaches`).
- An INSERT with such a field can succeed and leave a PK twice or an id at or above the next one in
  use (`LongIdBreaks`, `LongIdTables`), after which the next rebuild fails or an automatic id is
  taken; `ExecKeeps` and `RunKeepsOnly` give the exact condition under which statements keep their
  constraints.
- A header with more than five columns tagged (UK) writes past uk_idx (`HeaderInArray`,
  `SixUksOverrun`). Schemas elsewhere have at most five.
- An UPDATE giving several rows one UK value passes its check and fails in the rebuild
  (`LateClash`).

## Left out

- Failing allocations, failing file writes during a commit, interrupted reads, sockets and clocks; times and the sizes of reads are parameters.
- A commit is one step. Only the snapshot list has another mutex, so snapshots can be taken and released, and the list read, between the new version number and the new heads. That changes nothing: chains are read only under the mutex the commit holds, so a snapshot taken in between sees what one taken right after the commit sees, and the list does not depend on heads.
- Entries of the table array are stable, where the source keeps pointers into an array that may move.
- Version numbers, counters and row numbers do not wrap around.
- `db_exec`'s retry loop with its write-lock shards and its row count after a retry.
- The nodes of a tree live in a map from addresses to nodes inside the tree object, with an allocator that counts up; the array shifts inside a node are those of the source.
- BTreeHeap.BPlusTree.InsertPair: does not cover orders above 32, because the child shift leaves the node there; the engine always uses 32.
- The string-keyed tree: texts enter the one tree through their rank, which keeps their order; who owns the copies of the keys is not modelled.
- Engine.Table.Insert: does not cover a table without a PK, where the source puts key 0 into the PK tree.
- The capacity of the row array, which del_do does not reset: rows are a sequence.
- The hash function of the cache and the contents of HTTP header fields: every function and every reading of the header block is covered.
- Http.Conn.Serve: does not cover streams with a header block in the gap near the limit, where the requests do depend on the reads.
- Csv.LoadTable: does not cover headers with more than five columns tagged (UK), past which the source writes out of bounds.
- RECORD_SIZE is a parameter of the schema, at least 256.
- src/legacy/executor.c and src/cli/main.c: a second engine and its command line.
- Routing, JSON layout of responses, /page parameters and statistics: formatting without properties of its own.
