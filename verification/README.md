# Verified model of QuiverSQL

QuiverSQL is a federated SQL layer: a Rust daemon over DataFusion and a TypeScript client in the editor.
This project models its stateful and recursive cores in Dafny and proves what they are for. `dafny
verify dfyconfig.toml` verifies the whole project.

| files | component |
|---|---|
| `LogicalPlans`, `Broadcast`, `BroadcastProofs` | plans with a row semantics over a database, the broadcast-join rewrite, and that it preserves meaning |
| `BroadcastDecisions` | what is decided at each join, told from paths to scans and from the values of keys |
| `BroadcastTyping`, `BroadcastExactness` | typed plans, the casts and key types that are safe, and exactly when the rewrite is |
| `ResultPager` | the streaming result handle, its two page encoders, and history independence of paging |
| `QuerySessions`, `SessionLaws` | query tasks of the daemon as a step system: permits, handle locks, sessions, cancellation; what begins and ends sessions and what each request is answered |
| `SourceRegistry`, `SourceRequests` | source registration, removal and table loading as a step system with generations and the schema cache; requests that run alone |
| `SourceRemovals`, `SourceAges`, `SourceRenewals` | removals that overlap other requests, and how old a schema can be when the cache hands it out |
| `Framing`, `DaemonClient`, `RequestReader` | Content-Length framing (Header Part of the Base Protocol section of the Language Server Protocol 3.17 specification): writer, incremental parser, pull parser |
| `PlanGraph`, `PlanGraphProofs`, `PlanGraphPaths`, `PlanMetrics` | the truncated pre-order plan graph, by numbers and by paths, and the metrics stamped on it |
| `PlanLayout`, `PlanLayoutProofs` | the tree layout that draws the graph |
| `FixedWidth`, `FixedWidthProofs`, `FixedWidthCells`, `WholeScans` | fixed-width layouts, what cells are read as, and the batched scan |
| `TableRefs`, `TableRefProofs`, `TableRefPaths` | the CTE-scoped collection of table references, by positions and by paths through the syntax tree |
| `StatementSplitter`, `StatementSplitterProofs`, `StatementSegments`, `CommentsAsBlanks` | the one-pass statement splitter, what its statements are however a text reads, and when its removal of comments changes what they say |
| `SqlFilters`, `SqlFilterProofs`, `SqlFilterRoundTrip` | the SQLite filter printer and a reader with SQLite's precedences |
| `Common`, `Paths`, `Decimals`, `Strings`, `Blanks` | options, saturating arithmetic, sequences, paths through trees, decimal notation, trimming |

Operations that update state in the source are methods here, each proved against a function of the old state;
the properties are lemmas about those functions. Concurrency is a transition system: a step of a query task is
a stretch between two awaits, and a step of a source request is one lock acquisition or one wait.

## Where the code does not meet its promise

Each item is proved, with the exact condition under which the promise holds where there is one.

- `column_of` strips casts, so the IN list can drop rows that the join pairs: text cast to integers loses rows,
  widened integers do not. So does a join that lets NULL equal NULL, because NULL keys are dropped. For given
  column types the rewrite is exact if and only if whatever the join equates is equal before casts and not NULL.
- An Arrow page of a result without rows is an error, although empty ranges are documented as valid: zero-row
  batches are never buffered, and the page takes its schema from a buffered batch.
- After a limit error the counters stay above the buffer, and a page that they reach is answered from the buffer: with
  rows missing, unless the buffer covers it or it is past the end. Its last-page mark is right all the same.
- A cache hit stores the old schema again with a new time, so that a schema can be handed out at any age. For requests
  that do not overlap the TTL holds whatever the delays if and only if no table of a registration is asked for under
  a third spelling; in any run, a schema that was not handed out before is at most the TTL
  old, but for the time that its load held it.
- A load that waits for its schema outlives the removal of its source. A removal is complete in every order of the
  requests under way if and only if none of them registers the name or loads its tables, and the catalog covers it.
- Registering an alias again keeps the providers of the old registration, if any of its tables was loaded; removals stay
  complete.
- A message with a second header line, which the daemon's own reader skips, stalls the client for ever; the client acts
  if and only if the line end after the length line is followed by a blank line within its window.
- A scan of a fixed-width file with an empty projection fails as soon as it finds a line.
- The statement splitter removes comments without leaving a blank: `1-/**/-2` becomes `1--2`, and `a--b`, a line break
  and `c` become `ac`. Statements say what they say with blanks for the comments if and only if no comment stands
  between two characters of one token, outside quotes; they split again into themselves if and only if none stands
  between `-` and `-`, or `/` and `*`.
- IS NULL of a negation is printed as `NOT (x) IS NULL`, which reads as the negation of `(x) IS NULL`.
- A table whose schema has the name of a CTE in scope is not collected.

## Model

| member | source | states |
|---|---|---|
| `Broadcast.ApplyBroadcastRewrites` | qsql-workspace/qsql-core/src/broadcast.rs:137-149 | the pass returns the plan and account of the pure bottom-up rewrite, and the untouched plan with an empty account when disabled |
| `Broadcast.RewriteNode` | qsql-workspace/qsql-core/src/broadcast.rs:153-173 | children first, then the join itself; an unrewritten join is returned as it is |
| `Broadcast.RecurseIntoChildren` | qsql-workspace/qsql-core/src/broadcast.rs:175-193 | inputs are rewritten from left to right under one account, and the first error ends the pass |
| `Broadcast.TryRewriteJoin` | qsql-workspace/qsql-core/src/broadcast.rs:195-438 | one inspected join comes to the verdict that `BroadcastDecisions.LeftAlone`, `DecidedExactly` and `ReplacedExactly` tell, and is recorded once |
| `BroadcastDecisions.GuardedMeansRemote` | qsql-workspace/qsql-core/src/broadcast.rs:587-613 | a side is taken for a federated one if and only if some path of input indices leads from it to the scan of a guarded table |
| `BroadcastDecisions.LeftAlone` | qsql-workspace/qsql-core/src/broadcast.rs:203-275 | over any sides: which joins are left alone before keys are asked for, and each reason if and only if its own condition holds: the join type and number of keys, the key expressions, neither or both sides with a path to a guarded scan |
| `BroadcastDecisions.NoLocalColumn` | qsql-workspace/qsql-core/src/broadcast.rs:466-474 | a local side without the key column is left alone as a materialization error |
| `BroadcastDecisions.DecidedExactly` | qsql-workspace/qsql-core/src/broadcast.rs:275-391 | over any sides of which one is remote: cancellation, a cap passed, an unsupported type, a value of another type or a failed extraction, the one error, and the replacement, each if and only if its own condition on the values of the local key column holds |
| `BroadcastDecisions.ReplacedExactly` | qsql-workspace/qsql-core/src/broadcast.rs:301-437 | a replaced join is the empty relation or keeps its sides in place and lists every NOT NULL value once, in the order of extraction; what is reported of it, field by field |
| `BroadcastDecisions.DescribedByScans` | qsql-workspace/qsql-core/src/broadcast.rs:627-644 | a side is described by the tables of its scans, one for each scan, in the order of their paths |
| `BroadcastDecisions.BytesAreSummed` | qsql-workspace/qsql-core/src/broadcast.rs:498-503 | the size compared with the cap is the sum of the batch sizes, up to what a machine word holds |
| `BroadcastDecisions.PassOnlyRestricts` | qsql-workspace/qsql-core/src/broadcast.rs:153-193 | of a whole plan: where every replacement sends keys, the IN lists added are those reported, length by length, and nothing else changes; without a replacement nothing changes at all |
| `BroadcastDecisions.JoinsAreDecidedLast` | qsql-workspace/qsql-core/src/broadcast.rs:153-173 | a join is inspected after its left and then its right side, over what has become of them |
| `Broadcast.MaterializeDistinctKeys` | qsql-workspace/qsql-core/src/broadcast.rs:455-524 | one row past the cap is asked for; rows and bytes over a cap, cancellation and errors are told apart |
| `Broadcast.CollectDistinctScalars` | qsql-workspace/qsql-core/src/broadcast.rs:526-555 | the non-NULL keys, each once, in the order of first occurrence; a key of another type is an error |
| `BroadcastProofs.CapDetectsOverflow` | qsql-workspace/qsql-core/src/broadcast.rs:455-517 | ExceededCap comes out exactly if the distinct keys or the bytes are over their caps, and below the caps every distinct key is present |
| `BroadcastProofs.BroadcastKeys` | qsql-workspace/qsql-core/src/broadcast.rs:309-391 | what the verdict of a join is in terms of the distinct local keys: empty relation exactly if none is non-NULL, otherwise a list of all of them |
| `BroadcastProofs.BroadcastPreserves` | qsql-workspace/qsql-core/src/broadcast.rs:309-438 | a replaced join has the rows, in order, and the schema of the join, if the keys of its rows agree, on either side, with any extra join filter |
| `BroadcastProofs.RewritePreservesMeaning` | qsql-workspace/qsql-core/src/broadcast.rs:153-193 | for every plan and database in which the rows of every join agree, the rewritten plan yields the same rows in the same order and the same schema |
| `BroadcastProofs.RewriteSucceeds` | qsql-workspace/qsql-core/src/broadcast.rs:132-149 | a stalled, cancelled or oversized key extraction never fails the query |
| `BroadcastProofs.RewriteAccounts` | qsql-workspace/qsql-core/src/broadcast.rs:195-437 | every join is counted once and either applied or skipped; applied ones are within the row and byte caps |
| `BroadcastProofs.BroadcastPassCorrect` | qsql-workspace/qsql-core/src/broadcast.rs:132-149 | the whole pass: success, same meaning, considered = joins of the plan = applied + skipped |
| `BroadcastTyping.TypedRows` | qsql-workspace/qsql-core/src/broadcast.rs:334-352 | a key column holds values of the type its schema declares, if tables, projections and joins are typed |
| `BroadcastTyping.TypedPlanIsSafe` | qsql-workspace/qsql-core/src/broadcast.rs:334-391 | in a typed plan it is enough that the types of the equated columns agree under the casts: then the rows of every join agree |
| `BroadcastTyping.TypedPassCorrect` | qsql-workspace/qsql-core/src/broadcast.rs:132-149 | for typed plans whose key types agree the whole pass succeeds, keeps the meaning and accounts for every join |
| `BroadcastTyping.WideningKeysAreSafe` | qsql-workspace/qsql-core/src/broadcast.rs:578-585 | casts that only change the type of the values of their column, as widening does, make key types agree |
| `BroadcastTyping.UncastKeysKeepRaw` | qsql-workspace/qsql-core/src/broadcast.rs:578-585 | plain and aliased columns pass the values of any type through |
| `BroadcastTyping.WidenedIntegersAreSafe` | qsql-workspace/qsql-core/src/broadcast.rs:578-585 | 32-bit keys widened to 64 bits agree, from either side, also in a database whose cast parses text |
| `BroadcastTyping.ParsedTextIsUnsafe` | qsql-workspace/qsql-core/src/broadcast.rs:578-585 | text keys cast to integers do not agree: 05 is cast to 5, which it does not equal |
| `BroadcastTyping.NullMatchingIsUnsafe` | qsql-workspace/qsql-core/src/broadcast.rs:409-421 | key types never agree under a NULL rule that equates NULLs, even for plain columns |
| `BroadcastExactness.DisagreeingKeysLoseRows` | qsql-workspace/qsql-core/src/broadcast.rs:384-424 | one row on each side whose keys disagree: the join pairs them and the rewritten join does not, from either side |
| `BroadcastExactness.BroadcastIsExact` | qsql-workspace/qsql-core/src/broadcast.rs:195-438 | for two given column types and either local side, the pass keeps the rows of a single-key join for all contents of those types if and only if the types agree |
| `ResultPager.QueryResultHandle.PushBatch` | qsql-workspace/qsql-core/src/engine.rs:508-530 | zero-row batches are dropped; counters are bumped before a limit refuses the batch |
| `ResultPager.QueryResultHandle.Pull` | qsql-workspace/qsql-core/src/engine.rs:476-481 | one stream item: the buffer stays the non-empty prefix of what was consumed, nothing is appended after a refusal, and a limit error comes exactly if what was pulled is over a limit |
| `ResultPager.RowsAreLaidOut` | qsql-workspace/qsql-core/src/engine.rs:508-530 | the rows of a stream are those of its batches one after the other, and the bytes counted are those of its batches with rows |
| `ResultPager.QueryResultHandle.ReadUntil` | qsql-workspace/qsql-core/src/engine.rs:446-497 | no wait of a read but the last was interrupted, and what was pulled last explains how it ended: cancellation, timeout, stream error and limit error each have their cause and lose nothing buffered; the shortest prefix that reaches the target is pulled; after a limit error an undisturbed read succeeds exactly if the counters reach the target or nothing with rows is left |
| `ResultPager.QueryResultHandle.PageWithFormat` | qsql-workspace/qsql-core/src/engine.rs:310-420 | a format is refused if and only if it is given and neither json nor arrow_ipc; an answered page holds exactly its rows and its last-page mark, whatever was called before; every other ending is explained by the waits and by what was read last; an undisturbed call on a stream without failures and within the limits answers, unless it is for an Arrow page of no rows; what the counters already reach is answered without reading on; after a limit error it is exactly known when a call answers, the page is that of the buffer, right exactly when the buffer covers it or it lies past the end, and rightly marked as last or not |
| `ResultPager.ShortPageIsServed` | qsql-workspace/qsql-core/src/engine.rs:508-530 | an input: after a limit error the first page is answered without its row and not marked as last, and collecting returns nothing |
| `ResultPager.QueryResultHandle.BufferedWindow` | qsql-workspace/qsql-core/src/engine.rs:330-337 | once enough is read the window over the buffer is the window over the whole result, saturating bounds included |
| `ResultPager.QueryResultHandle.TruncatedWindow` | qsql-workspace/qsql-core/src/engine.rs:512-527 | after a refused batch the page of what is buffered is the page of the result if and only if the buffer covers it or it lies past the end |
| `ResultPager.QueryResultHandle.SomethingBuffered` | qsql-workspace/qsql-core/src/engine.rs:353-366 | once enough is read, a batch is buffered if and only if the result has rows, so that an Arrow page of a result without rows finds no schema |
| `ResultPager.QueryResultHandle.CutPage` | qsql-workspace/qsql-core/src/engine.rs:329-420 | the page of what is buffered, with the right last-page mark also after a limit error; an Arrow page is refused exactly if no batch is buffered |
| `ResultPager.PageRowsByIndex` | qsql-workspace/qsql-core/src/models.rs:287-320 | row k of a page is row index * size + k of the result, as far as the page and the result go |
| `ResultPager.QueryResultHandle.LastMark` | qsql-workspace/qsql-core/src/engine.rs:407 | the counters count every pulled row, so that the last-page mark is that of the whole result, also after a limit error |
| `ResultPager.RecordBatchesToJsonRows` | qsql-workspace/qsql-core/src/engine.rs:1359-1392 | the skip/take walk yields the rows from start on, for any split into batches |
| `ResultPager.SerializeBatches` | qsql-workspace/qsql-core/src/result_ipc.rs:42-82 | the cursor walk yields the same rows, in slices none of which is empty |
| `ResultPager.ServePages` | qsql-workspace/qsql-core/src/engine.rs:310-420 | in any sequence of calls of any sizes and formats, however they ended, every answer before a limit error is the right page, and on a wholesome stream every undisturbed call is answered |
| `ResultPager.CollectAll` | qsql-workspace/qsql-core/src/engine.rs:422-443 | collecting everything returns every row, within the row limit, and an undisturbed call on a wholesome stream does return; on a handle after a limit error it returns what is buffered, which misses rows, exactly if nothing with rows is left to read |
| `ResultPager.BuildQueryPageIsExact` | qsql-workspace/qsql-core/src/models.rs:287-320 | the in-memory page builder returns the page of its index and size |
| `ResultPager.StreamingAgreesWithInMemory` | qsql-workspace/qsql-core/src/models.rs:287-320 | the streaming pager and the in-memory builder agree on rows and on the last page |
| `ResultPager.PagesPartitionTheResult` | qsql-workspace/qsql-core/src/engine.rs:310-420 | pages 0, 1, 2, ... up to the one marked last are the whole result, each row once |
| `QuerySessions.StepKeepsInvariant` | qsql-workspace/qsql-daemon/src/lib.rs:857-1035 | every step of every query task keeps permits, locks, ids, sessions, cancellations and reads consistent |
| `QuerySessions.PermitsAreConserved` | qsql-workspace/qsql-daemon/src/lib.rs:874-882 | over every interleaving free and held permits make sixteen, and all are free once every task has returned |
| `QuerySessions.HandlesAreExclusive` | qsql-workspace/qsql-daemon/src/lib.rs:913-924 | at most one task is inside a handle, and no id is issued twice |
| `QuerySessions.CancelledAtMostOnce` | qsql-workspace/qsql-daemon/src/lib.rs:1016-1033 | a cancellation is acknowledged at most once per query; when it is, `SessionLaws.CancelEndsSession` tells |
| `QuerySessions.CancelledIsGone` | qsql-workspace/qsql-daemon/src/lib.rs:1016-1033 | an acknowledged cancellation leaves no session |
| `QuerySessions.FailedStartIsGone` | qsql-workspace/qsql-daemon/src/lib.rs:927-931 | a query_start that failed leaves no session |
| `QuerySessions.GoneForever` | qsql-workspace/qsql-daemon/src/lib.rs:164-167 | a session that is gone never comes back, since ids are not reused |
| `QuerySessions.NoRowsAfterCancel` | qsql-workspace/qsql-core/src/engine.rs:464-466 | a page whose read begins after an acknowledged cancellation never returns rows |
| `QuerySessions.SomeTaskCanMove` | qsql-workspace/qsql-daemon/src/lib.rs:857-1005 | no deadlock: while a task has not returned, some task can move |
| `SessionLaws.SessionLives` | qsql-workspace/qsql-daemon/src/lib.rs:904-931 | over every run: a query is a session if and only if its planning succeeded and since then neither was it cancelled nor did the first page of its own query_start fail; a failed query_page does not end it |
| `SessionLaws.CancelEndsSession` | qsql-workspace/qsql-daemon/src/lib.rs:1016-1033 | in every reachable state a cancellation answers true if and only if the query is a session, which then ends for good, and changes nothing else |
| `SessionLaws.CancelReplies` | qsql-workspace/qsql-daemon/src/lib.rs:1016-1033 | over every run: each cancellation is answered once, in order, with whether its query was a session then |
| `SessionLaws.ReadAfterCancelFails` | qsql-workspace/qsql-core/src/engine.rs:464-466 | whatever comes in between, a task that begins to read a query after its cancellation ends in a failure |
| `SessionLaws.EachOnItsOwn` | qsql-workspace/qsql-daemon/src/lib.rs:936-1005 | over every run: a task works on the query it asked for, or was issued, and returns the rows of no other |
| `SessionLaws.AcquireOutcome` | qsql-workspace/qsql-daemon/src/lib.rs:874-988 | who asks for a permit is turned away if and only if sixteen are held; otherwise a page is refused if and only if its query is no session or its size is invalid, and a query_start is issued an id that no other task has |
| `SessionLaws.ReadOutcome` | qsql-workspace/qsql-core/src/engine.rs:464-466 | once inside the handle a read begins, unless its query was cancelled |
| `SessionLaws.PageIsServed` | qsql-workspace/qsql-daemon/src/lib.rs:936-1005 | a page of a session is served to whoever finds a permit and the handle free, and sessions, locks and permits are as before |
| `SessionLaws.EveryAnswerHasItsCause` | qsql-workspace/qsql-daemon/src/lib.rs:857-1035 | over every run: a task has an answer if and only if its cause occurred, for each kind of answer, and answers are final |
| `SourceRegistry.CacheServesItsOwnRegistration` | qsql-workspace/qsql-daemon/src/lib.rs:1340-1363 | over every interleaving a served schema was introspected through the connection that was published under its alias and generation, from the listed table that the requested name picks, and stored at most the TTL before; a living registration of that generation is under that alias |
| `SourceRegistry.FoundIsPicked` | qsql-workspace/qsql-daemon/src/lib.rs:1219-1235 | the table found is the requested one if it is listed, else the first listed one that differs only in ASCII case; there is none if and only if no listed table is the same but for case |
| `SourceRegistry.TablesAreTheOnesAskedFor` | qsql-workspace/qsql-daemon/src/lib.rs:1211-1338 | over every interleaving a registered table is read through a registration published under its alias, with a schema introspected through that connection from the listed table that its name picks |
| `SourceRegistry.RegisteredStays` | qsql-workspace/qsql-daemon/src/lib.rs:1241-1247 | in a run without a removal of its database, a registered table stays as it is whoever asks for it again, unless a load that missed it was about to insert it |
| `SourceRequests.NothingToLoad` | qsql-workspace/qsql-daemon/src/lib.rs:1211-1247 | nothing is loaded for an unknown alias, a table that is not listed, or one that is registered |
| `SourceRequests.WhatIsLoaded` | qsql-workspace/qsql-daemon/src/lib.rs:1211-1338 | otherwise the table its name picks is registered under the name asked for, with the schema the cache stored within 300 seconds or one introspected now, which is stored; a failing load registers nothing |
| `SourceRequests.FileIsRegistered` | qsql-workspace/qsql-core/src/engine.rs:549-562 | a registered file is a table of its own |
| `SourceRequests.RegisteredThenLoaded` | qsql-workspace/qsql-daemon/src/lib.rs:452-527 | a listed table of a database just registered is read through its connection with a schema introspected now, whoever had the alias before |
| `SourceRequests.WhatIsRemoved` | qsql-workspace/qsql-daemon/src/lib.rs:362-388 | a removal takes the tables of a database or the table of a file, with the name, and leaves everything of all other names |
| `SourceRequests.AfterIsRun` | qsql-workspace/qsql-daemon/src/lib.rs:1211-1338 | the closed form of a request that runs alone is what its steps come to |
| `SourceRequests.RemovalIsComplete` | qsql-workspace/qsql-daemon/src/lib.rs:362-388 | an uninterrupted removal leaves nothing of the name in catalog, registrations, registry and cache if and only if the catalog kind covers the tables of that name |
| `SourceRequests.ServeKeepsOrder` | qsql-workspace/qsql-daemon/src/lib.rs:452-527 | a request that runs alone keeps names, tables and providers in order |
| `SourceRequests.SerialRequestsStayCurrent` | qsql-workspace/qsql-core/src/engine.rs:549-562 | requests that do not overlap, register no alias twice and share no name: tables are read through the present registration, and any removal is complete |
| `SourceRequests.SerialRemovalsAreComplete` | qsql-workspace/qsql-core/src/engine.rs:549-562 | requests that do not overlap and use no name of the catalog for both a file and a database, aliases registered again included: any removal then leaves nothing of its name |
| `SourceRequests.RegisteringAgainKeepsKinds` | qsql-workspace/qsql-daemon/src/lib.rs:452-527 | registering an alias again is among the requests after which removals are complete, though not among those that keep providers current |
| `SourceRequests.FreshDaemonIsOrderly` | qsql-workspace/qsql-daemon/src/lib.rs:150-162 | a fresh daemon satisfies what serial requests need |
| `SourceRequests.ReRegistrationKeepsOldTables` | qsql-workspace/qsql-core/src/engine.rs:934-958 | after an alias is registered again its tables are read through the new registration if and only if none was loaded before |
| `SourceRemovals.OverlappedRemoval` | qsql-workspace/qsql-daemon/src/lib.rs:362-388 | a removal that overlaps any requests: nothing of the name stays in every order and outcome in which all of them end, if and only if none of them brings the name back and the removals under way cover its tables |
| `SourceRemovals.OneRemovalCovers` | qsql-workspace/qsql-core/src/engine.rs:549-562 | without another removal of the name under way, its tables are covered if and only if the catalog kind covers them |
| `SourceRemovals.LoadOutlivesRemoval` | qsql-workspace/qsql-daemon/src/lib.rs:1251-1274 | a run of a fresh daemon in which a load that waits for its schema outlives the removal of its source |
| `SourceAges.StateAtIsReached` | qsql-workspace/qsql-daemon/src/lib.rs:1211-1338 | requests that do not overlap, with any delays between them, run by their own steps |
| `SourceAges.AgesAreBounded` | qsql-workspace/qsql-daemon/src/lib.rs:1249-1270 | whatever time passes between requests, no schema older than the TTL is handed out if and only if no table of a registration is asked for again after two loads of it |
| `SourceAges.SpellingsDiffer` | qsql-workspace/qsql-daemon/src/lib.rs:1241-1247 | a table loaded under one spelling is not asked for again under it, so that only a third spelling asks a third time |
| `SourceAges.OldSchemaIsServed` | qsql-workspace/qsql-daemon/src/lib.rs:1249-1270 | a run of a fresh daemon, with three spellings of one table, in which a schema of twice the TTL is handed out |
| `SourceRenewals.FirstHitsAreFresh` | qsql-workspace/qsql-daemon/src/lib.rs:1340-1363 | over every interleaving, a schema that is first handed out is older than the TTL by at most the time that a load held it between its introspection and its store, so that only an entry renewed by a hit can be older |
| `SourceRenewals.FoundMeansHandedOut` | qsql-workspace/qsql-daemon/src/lib.rs:1249-1260 | over every interleaving, a schema that a load found in the cache had been handed out |
| `Framing.ActionIsStable` | qsql-vscode/src/daemonClient.ts:150-183 | once the parser acts, bytes that arrive later do not change what it does |
| `Framing.DrainAppend` | qsql-vscode/src/daemonClient.ts:150-183 | draining a longer buffer is draining the shorter one and going on with what was kept |
| `Framing.ChunkingDoesNotMatter` | qsql-vscode/src/daemonClient.ts:85-88 | however a byte stream is cut into chunks the same frames come out and the same tail is kept |
| `Framing.FramingRoundTrip` | qsql-vscode/src/daemonClient.ts:235-236 | framed bodies mixed with lines are parsed back, in order, with nothing left over |
| `Framing.PartialMessageWaits` | qsql-vscode/src/daemonClient.ts:159-175 | an incomplete message is kept and yields nothing |
| `Framing.HeaderMatches` | qsql-vscode/src/daemonClient.ts:153-157 | the header the writer writes matches with its own length |
| `Framing.PaddedLineIsTaken` | qsql-vscode/src/daemonClient.ts:172-182 | a line is delivered without the white space around it, and dropped if that is all of it |
| `Framing.HeaderNameInAnyCase` | qsql-vscode/src/daemonClient.ts:153-170 | the name of the header is taken in any case |
| `DaemonConnection.DaemonClient.SendRequest` | qsql-vscode/src/daemonClient.ts:222-239 | a fresh id becomes pending and the framed body is written |
| `DaemonConnection.DaemonClient.ProcessResponseFrame` | qsql-vscode/src/daemonClient.ts:185-220 | a frame settles the request it answers if that is pending, and nothing else |
| `DaemonConnection.DaemonClient.ProcessBuffer` | qsql-vscode/src/daemonClient.ts:150-183 | the loop settles what the drained frames settle, in order, and keeps the incomplete tail |
| `DaemonConnection.DaemonClient.OnData` | qsql-vscode/src/daemonClient.ts:85-88 | one chunk: buffer, pending requests and settlements afterwards |
| `DaemonConnection.SettledByFirstAnswer` | qsql-vscode/src/daemonClient.ts:187-215 | a pending request stays pending exactly if no frame answers it, and otherwise is settled by the first frame that does, rejected exactly if that carries an error |
| `DaemonConnection.SettledOnce` | qsql-vscode/src/daemonClient.ts:187-215 | only pending requests are settled, each once, and then they are pending no more |
| `DaemonConnection.AfterChunk` | qsql-vscode/src/daemonClient.ts:85-88 | bytes that arrive later can as well have been there when the buffer was drained |
| `DaemonConnection.ReceiveAll` | qsql-vscode/src/daemonClient.ts:85-88 | however the bytes are cut into chunks, the same requests are settled the same way |
| `RequestReader.ReadRequestFrame` | qsql-workspace/qsql-daemon/src/lib.rs:193-223 | the pull parser as a function of the input: message, end or broken input, and what is left to read |
| `RequestReader.ReadUndoesWrite` | qsql-workspace/qsql-daemon/src/lib.rs:193-223 | reading a written frame followed by anything returns its body and leaves what follows |
| `RequestReader.RequestsRoundTrip` | qsql-workspace/qsql-daemon/src/lib.rs:178-223 | the daemon reads back exactly what a client wrote, in order: framed bodies mixed with requests on lines of their own that announce no length |
| `RequestReader.AnnouncedExactly` | qsql-workspace/qsql-daemon/src/lib.rs:204-207 | a first line is taken for a length if and only if it is the name of the header and a number of the machine word, with a plus sign or without, in white space |
| `RequestReader.CutBodyIsAnError` | qsql-workspace/qsql-daemon/src/lib.rs:217-219 | a body that the end of the input cuts short is an error |
| `RequestReader.ReadAll` | qsql-workspace/qsql-daemon/src/lib.rs:182-190 | the read loop returns the messages of the input and how it ended |
| `RequestReader.DaemonSkipsHeaders` | qsql-workspace/qsql-daemon/src/lib.rs:208-216 | a second header line is skipped by the daemon |
| `RequestReader.ClientActsOnBlankLine` | qsql-vscode/src/daemonClient.ts:150-175 | behind any first line that announces a length, the client acts on a buffer that holds the body if and only if a line end follows and the header ends within the 1024-byte window |
| `RequestReader.ClientStallsOnHeaders` | qsql-vscode/src/daemonClient.ts:168-170 | on a message with a further header the client waits for ever, whatever arrives later |
| `PlanGraph.GraphBuilder.TraversePlan` | qsql-workspace/qsql-daemon/src/explain.rs:464-700 | the in-place traversal leaves the nodes, ids and truncation of the pure traversal; a full map only counts the id |
| `PlanGraph.GraphBuilder.TraverseInputs` | qsql-workspace/qsql-daemon/src/explain.rs:684-697 | the loop over inputs stops at the limit, and lists the children that are in the map |
| `PlanGraphProofs.TraversalNumbers` | qsql-workspace/qsql-daemon/src/explain.rs:464-700 | the traversal inserts the truncated pre-order numbering, and truncation is set exactly if nodes are missing |
| `PlanGraphProofs.BuildPlanGraph` | qsql-workspace/qsql-daemon/src/explain.rs:51-79 | the graph is the truncated pre-order numbering: the first min(size, limit) nodes under their ids, the root is 0, and truncated is set if and only if the plan has more nodes than the limit |
| `PlanGraphProofs.NumberedInPreOrder` | qsql-workspace/qsql-daemon/src/explain.rs:471-477 | node i is the i-th operator in pre-order |
| `PlanGraphProofs.ListedByParent` | qsql-workspace/qsql-daemon/src/explain.rs:684-697 | an id is listed as a child of exactly its parent, and only if it is present |
| `PlanGraphProofs.GraphIsTree` | qsql-workspace/qsql-daemon/src/explain.rs:464-700 | every present node but the root is listed once, by exactly one node, which has a smaller id, and every listed child is present |
| `PlanGraphPaths.GraphByPaths` | qsql-workspace/qsql-daemon/src/explain.rs:464-700 | told by paths of input indices: node i shows the operator at the i-th path of the plan, and lists the present nodes whose paths go one step on from its own, in order |
| `PlanMetrics.PreOrderWalk` | qsql-workspace/qsql-daemon/src/explain.rs:819-826 | the recursive walk appends an id and the walks from the children of its node |
| `PlanMetrics.ApplyRuntimeMetrics` | qsql-workspace/qsql-daemon/src/explain.rs:815-841 | metrics are stamped along the walk from the roots, as far as both lists go |
| `PlanMetrics.WalkMeetsIdsInOrder` | qsql-workspace/qsql-daemon/src/explain.rs:800-830 | the walk over a plan graph meets its nodes in the order their ids were given out |
| `PlanMetrics.MetricsLandOnTheirNodes` | qsql-workspace/qsql-daemon/src/explain.rs:831-840 | metrics[i] lands on node i and nowhere else; without metrics nothing changes |
| `PlanMetrics.BuildAnalyzedGraph` | qsql-workspace/qsql-daemon/src/lib.rs:755-780 | the graph that is built for a plan and stamped has at id i the i-th operator with metrics[i], and without metrics where there are none |
| `PlanLayout.TreeLayout.Measure` | qsql-vscode/src/planVisualizationPanel.ts:798-813 | widths bottom-up and levels top-down, for every node of the subtree |
| `PlanLayout.TreeLayout.Position` | qsql-vscode/src/planVisualizationPanel.ts:815-828 | every node is centred over the interval of its subtree, siblings side by side |
| `PlanLayout.TreeLayout.RenderTree` | qsql-vscode/src/planVisualizationPanel.ts:830-838 | the root loop leaves all trees placed side by side, and the canvas size |
| `PlanLayoutProofs.WidthIsEven` | qsql-vscode/src/planVisualizationPanel.ts:815-818 | halving the space beside a node is exact |
| `PlanLayoutProofs.SubtreeWithin` | qsql-vscode/src/planVisualizationPanel.ts:798-828 | a subtree keeps to its interval and its levels |
| `PlanLayoutProofs.BoxesAreDisjoint` | qsql-vscode/src/planVisualizationPanel.ts:798-838 | no point belongs to two boxes |
| `PlanLayoutProofs.BoxesAreOnTheCanvas` | qsql-vscode/src/planVisualizationPanel.ts:837-838 | every point of every box is on the canvas |
| `PlanLayoutProofs.EveryNodeIsDrawn` | qsql-vscode/src/planVisualizationPanel.ts:830-835 | every node of the forest has a box |
| `PlanLayoutProofs.NodesAreCentred` | qsql-vscode/src/planVisualizationPanel.ts:798-828 | every node, by its path: its box is in the middle over the intervals of its children side by side, each of which is in the middle of its own; its width is theirs, though not below that of its box; its level is the length of its path |
| `PlanLayoutProofs.RootsAreCentred` | qsql-vscode/src/planVisualizationPanel.ts:830-836 | the trees stand side by side behind the margin, each root in the middle of its own interval |
| `PlanLayoutProofs.CanvasFits` | qsql-vscode/src/planVisualizationPanel.ts:837-838 | the canvas is as wide as the trees with their spacing and margins and as high as the deepest node asks for |
| `FixedWidth.Validate` | qsql-workspace/qsql-core/src/fixed_width.rs:149-188 | accepts exactly the non-empty layouts of typed, non-empty, pairwise disjoint fields, and names what is wrong otherwise |
| `FixedWidth.BuildColumn` | qsql-workspace/qsql-core/src/fixed_width.rs:539-729 | the cells of a column in order, or the error of its first line that cannot be sliced, failing that of its type, failing that of its first line that cannot be read |
| `FixedWidth.BuildBatch` | qsql-workspace/qsql-core/src/fixed_width.rs:509-533 | a batch of all rows exactly if every selected cell of every line can be read and some column is selected; otherwise the error of the first column that has one |
| `FixedWidth.StreamState.ReadLines` | qsql-workspace/qsql-core/src/fixed_width.rs:453-480 | up to target non-blank lines without their line breaks; the end and a failure end the stream |
| `FixedWidth.StreamState.NextBatch` | qsql-workspace/qsql-core/src/fixed_width.rs:438-504 | one batch: what it returns and how far it moves, with limit, end, failure and bad lines |
| `FixedWidthProofs.OverlapMeansSharedByte` | qsql-workspace/qsql-core/src/fixed_width.rs:191-193 | the overlap test is exact for non-empty fields |
| `FixedWidthProofs.RaggedLines` | qsql-workspace/qsql-core/src/fixed_width.rs:145-147 | some field reports a line as too short if and only if the line is below the minimal row width |
| `FixedWidthProofs.LayoutIsLossless` | qsql-workspace/qsql-core/src/fixed_width.rs:145-193 | values written into the fields of a row without overlaps are all read back |
| `FixedWidthProofs.OverlapsLoseValues` | qsql-workspace/qsql-core/src/fixed_width.rs:161-181 | two fields that share a byte have contents that no row holds |
| `FixedWidthProofs.PaddedIntegersParseBack` | qsql-workspace/qsql-core/src/fixed_width.rs:734-755 | an integer in range, in decimal with any blanks around it, is read back |
| `FixedWidthCells.NoText` | qsql-workspace/qsql-core/src/fixed_width.rs:550-573 | a field is a short row if and only if the line ends before it, and a split character if and only if no text has its bytes |
| `FixedWidthCells.WidthIsShortest` | qsql-workspace/qsql-core/src/fixed_width.rs:549-563 | a character takes as few bytes as its code point fits into |
| `FixedWidthCells.BlankIsRead` | qsql-workspace/qsql-core/src/fixed_width.rs:574-591 | a blank field is NULL if the column may be NULL, and an error otherwise |
| `FixedWidthCells.TextIsRead` | qsql-workspace/qsql-core/src/fixed_width.rs:574-604 | a text column holds its text, trimmed exactly if it says so |
| `FixedWidthCells.FlagIsRead` | qsql-workspace/qsql-core/src/fixed_width.rs:605-626 | a boolean column takes five spellings of each truth value in any case, and nothing else |
| `FixedWidthCells.IntegerIsRead` | qsql-workspace/qsql-core/src/fixed_width.rs:734-755 | an integer column takes exactly the decimal notations of the numbers in its range, with the sign its type allows |
| `FixedWidthCells.FloatIsRead` | qsql-workspace/qsql-core/src/fixed_width.rs:686-711 | a float column takes what its parser takes |
| `FixedWidthCells.LinesStand` | qsql-workspace/qsql-core/src/fixed_width.rs:463-471 | the lines of a scan are what is left of the reads without their line breaks, in order, of which something is left |
| `FixedWidthCells.TakeStops` | qsql-workspace/qsql-core/src/fixed_width.rs:456-480 | reading stops behind the last line wanted, behind a failure or at the end of the file, whichever comes first |
| `WholeScans.TakeSplit` | qsql-workspace/qsql-core/src/fixed_width.rs:456-480 | reading lines in two portions is reading them in one |
| `WholeScans.FailureEndsTheScan` | qsql-workspace/qsql-core/src/fixed_width.rs:486-503 | a failing batch leaves exactly the whole batches before the first bad line |
| `WholeScans.ReadAll` | qsql-workspace/qsql-core/src/fixed_width.rs:437-504 | the concatenated batches, none above 8192 rows, are the one-shot parse of the first limit non-blank lines; a bad line gives one error and then the end |
| `WholeScans.ProjectedScan` | qsql-workspace/qsql-core/src/fixed_width.rs:509-533 | if all columns can be read, a scan of some of them is the projection of the full scan |
| `WholeScans.EmptySelectionFails` | qsql-workspace/qsql-core/src/fixed_width.rs:519-533 | a scan of no columns emits nothing and fails exactly if it finds a line |
| `TableRefs.ExtractDatabaseTableRefs` | qsql-workspace/qsql-core/src/table_refs.rs:16-27 | the references are the first visible occurrences among the visited positions, which `TableRefPaths.CollectedByPaths` tells from the syntax tree |
| `TableRefs.Collector.CollectQuery` | qsql-workspace/qsql-core/src/table_refs.rs:40-57 | CTE names are in scope in all CTE queries and in the body |
| `TableRefs.Collector.CollectSetExpr` | qsql-workspace/qsql-core/src/table_refs.rs:59-79 | selects, nested queries, both sides of set operations, and TABLE with a schema |
| `TableRefs.Collector.CollectSelect` | qsql-workspace/qsql-core/src/table_refs.rs:81-99 | tables, projection, selection and having, in that order |
| `TableRefs.Collector.CollectExpr` | qsql-workspace/qsql-core/src/table_refs.rs:114-188 | the expressions that are entered, operands from left to right |
| `TableRefs.Collector.CollectTableFactor` | qsql-workspace/qsql-core/src/table_refs.rs:202-216 | tables, derived tables and nested joins |
| `TableRefs.Collector.AddObjectName` | qsql-workspace/qsql-core/src/table_refs.rs:218-238 | only two-part names whose first part is no CTE are added |
| `TableRefs.Collector.AddSchemaTable` | qsql-workspace/qsql-core/src/table_refs.rs:240-258 | a reference is added once, and seen holds exactly the references |
| `TableRefProofs.CollectedAreFirstOccurrences` | qsql-workspace/qsql-core/src/table_refs.rs:240-258 | the references are the unshadowed names in the order of their first occurrence, each once |
| `TableRefProofs.CollectedExactly` | qsql-workspace/qsql-core/src/table_refs.rs:218-258 | a name is collected if and only if it stands at a visited position where no CTE has the name of its schema |
| `TableRefProofs.LargerScopesOnlyRemove` | qsql-workspace/qsql-core/src/table_refs.rs:40-57 | names added to the scope remove exactly the references with those schema names |
| `TableRefProofs.NothingIsLost` | qsql-workspace/qsql-core/src/table_refs.rs:233-248 | no visited name is lost if and only if each has a position outside the scope of a CTE of that name |
| `TableRefProofs.SchemaNamedLikeACteIsLost` | qsql-workspace/qsql-core/src/table_refs.rs:46-56 | a table of a schema is lost once a CTE of the query has the name of the schema |
| `TableRefPaths.CollectedByPaths` | qsql-workspace/qsql-core/src/table_refs.rs:16-258 | told by paths through the syntax tree: a reference is collected if and only if its two-part name stands at the end of a path on which no query has a CTE of its schema name, and references come in the order of the first such paths |
| `TableRefPaths.IdentifiersAreTwo` | qsql-workspace/qsql-core/src/table_refs.rs:218-232 | a name counts as a two-part name if and only if exactly two of its parts are identifiers |
| `StatementSplitter.DetectQueries` | qsql-vscode/src/extension.ts:14-108 | the one-pass scan finds the statements of the two-pass specification, on every text |
| `StatementSplitter.ScanIsSplitOfStripped` | qsql-vscode/src/extension.ts:25-92 | from any position and mode the scan is the split of the stripped rest |
| `StatementSplitterProofs.PiecesJoin` | qsql-vscode/src/extension.ts:75-92 | the pieces joined by semicolons are the whole text |
| `StatementSplitterProofs.PiecesAreUnsplit` | qsql-vscode/src/extension.ts:75-76 | no piece has a semicolon outside quotes, and all but the last end outside quotes |
| `StatementSplitterProofs.StrippingChanges` | qsql-vscode/src/extension.ts:30-68 | stripping changes exactly the texts in which a comment opens outside quotes |
| `StatementSplitterProofs.StatementsSplitAgain` | qsql-vscode/src/extension.ts:75-107 | a statement that is split again gives itself if and only if no comment opens in it |
| `StatementSplitterProofs.TextsSplitAgain` | qsql-vscode/src/extension.ts:30-107 | all statements of a text survive being split again if and only if nowhere in the text, outside quotes, a removed comment leaves its neighbours as the opening of a comment |
| `StatementSplitterProofs.CommentsCanGlueAComment` | qsql-vscode/src/extension.ts:60-67 | a removed comment can leave two dashes side by side, and so a new comment |
| `StatementSegments.StatementsOfSegments` | qsql-vscode/src/extension.ts:14-108 | however a text is read as characters, quoted texts, comments and semicolons, its statements are what stands between the semicolons without the comments: not blank, trimmed, in order, all but the last piece with their semicolon |
| `StatementSegments.EveryTextReads` | qsql-vscode/src/extension.ts:25-92 | every text can be read so, with what is not closed going on to its end |
| `Blanks.TrimsDiffer` | qsql-vscode/src/extension.ts:78-100 | the white space that the editor's trim takes is that of the daemon's, with the byte order mark and without NEL |
| `CommentsAsBlanks.CommentsActAsBlanks` | qsql-vscode/src/extension.ts:30-107 | for any notion of token by which neighbours join: the statements found say what the statements of the text with a blank for each comment say, token by token, if and only if no comment outside quotes stands between two characters that join |
| `CommentsAsBlanks.StrippedAndBlanked` | qsql-vscode/src/extension.ts:25-68 | from any position and mode, piece by piece: the stripped rest says the same as the blanked one, or the same pieces are empty and it has fewer tokens |
| `CommentsAsBlanks.GluingParts` | qsql-vscode/src/extension.ts:60-67 | where a removed comment glues the opening of a comment, it parts characters that join |
| `CommentsAsBlanks.CommentsCanGlueWords` | qsql-vscode/src/extension.ts:30-35 | an input: the line break that ends a comment vanishes with it, and words grow together |
| `CommentsAsBlanks.CommentsCanGlueOperators` | qsql-vscode/src/extension.ts:62-67 | an input: the characters of an operator grow together |
| `CommentsAsBlanks.CommentsCanGlueQuotes` | qsql-vscode/src/extension.ts:41-70 | an input: two quoted texts become one with a quote in it |
| `SqlFilters.ApplyPhysicalFilters` | qsql-workspace/qsql-connectors/src/sqlite.rs:328-355 | the static filters joined by AND, no condition if there is none, and an error for one that cannot be printed |
| `SqlFilters.StaticsStand` | qsql-workspace/qsql-connectors/src/sqlite.rs:328-345 | every static filter is in the conjunction, once and in its place, and a dynamic one is not |
| `SqlFilterRoundTrip.QuotingRoundTrip` | qsql-workspace/qsql-connectors/src/sql.rs:93-101 | quoted identifiers and strings are self-delimiting and unquote to the original |
| `SqlFilterRoundTrip.NamesAndLiteralsReadBack` | qsql-workspace/qsql-connectors/src/sql.rs:35-41 | identifiers are told by the quote of their dialect and literals by theirs, and read back whole |
| `SqlFilterRoundTrip.PrintableIsPrinted` | qsql-workspace/qsql-connectors/src/sqlite.rs:357-387 | which expressions are printed |
| `SqlFilterRoundTrip.PrintedIsLexed` | qsql-workspace/qsql-connectors/src/sqlite.rs:357-387 | the tokens of a printed filter are recovered, whatever properly follows it |
| `SqlFilterProofs.Reads` | qsql-workspace/qsql-connectors/src/sqlite.rs:367-385 | what reading the tokens of an expression comes to under the precedences of SQL |
| `SqlFilterProofs.ReadBackIsSafe` | qsql-workspace/qsql-connectors/src/sqlite.rs:367-385 | an expression is read back as itself if and only if the operands of its comparisons and IS [NOT] NULL are safe |
| `SqlFilterRoundTrip.FilterRoundTrip` | qsql-workspace/qsql-connectors/src/sqlite.rs:357-387 | reading a printed filter gives the filter if and only if it is safe, and what it gives otherwise |
| `SqlFilterRoundTrip.NotIsNullIsMisread` | qsql-workspace/qsql-connectors/src/sqlite.rs:374-385 | IS NULL after a printed NOT is taken into the operand of the NOT |
| `SqlFilterRoundTrip.ConjunctionRoundTrip` | qsql-workspace/qsql-connectors/src/sqlite.rs:354 | safe filters joined by AND are read back as their conjunction |

## Left out

- DataFusion's optimizer, the second optimizer pass after the rewrite, federation unparsing and Arrow bytes with base64: library code; batches are sequences of rows.
- Evaluation errors, NaN and floating-point keys in the broadcast rewrite: keys are typed values with plain equality and NULL, and local evaluation is a deterministic function of the database.
- Deduplication by debug string in `collect_distinct_scalars`: modelled as equality of typed values.
- `max_local_rows + 1` and buffer limits at the largest word: limits are assumed to be below 2^64 - 1, as is the length of a result.
- Wall-clock metrics, elapsed times, environment variables and error message texts: limits are constants, time is a step, errors are tags.
- Page-size normalisation with its warning, and the `execute`, `explain_query` and `get_lineage` requests: they add no state to the session protocol.
- Ids such as `q_7` and `df_3` are naturals, and the daemon's maps behind locks are values that steps replace; poisoned locks and panics are not modelled.
- SourceAges.AgesAreBounded: does not cover requests that overlap, because a load that lingers between two of its steps can hold a schema for any time; what holds for them is `SourceRenewals.FirstHitsAreFresh`.
- Connector introspection, drivers, file opening, process spawning and write errors of the daemon's standard input: I/O; introspection is a step that may fail.
- UTF-8 validity of request lines and of the client's header window, and white space outside ASCII in `\s` and `trim` of framing: messages are byte strings.
- DaemonConnection.DaemonClient.SendRequest: does not model the write callback that rejects a request, since it depends on the process.
- JSON numbers above 2^53 in a Content-Length header: lengths are naturals.
- Labels, attributes, badges, provider kinds and remote SQL of plan nodes: a node is its displayed title, its children and its metrics.
- Plan graph nodes whose listed children are absent from the map, in the drawing: the graph builder lists none.
- Icons, text, edges, zoom and panels of the plan view: only the layout arithmetic is kept.
- `sql_type_to_arrow` and the parsing of layout files: a field comes with its type, or with none if the name is not recognised; offsets do not wrap around.
- Floating-point parsing in fixed-width cells: the parser of a float type is a parameter.
- Ranges of detected statements in the editor: only the statements' texts are modelled.
- Tokens that depend on more than neighbouring characters, such as numbers with exponents: a notion of token is any relation between neighbours.
- Subqueries in join conditions, GROUP BY, ORDER BY, function arguments and casts: the walker does not enter them, so the syntax trees here do not have them.
- `insert_where_clause` on raw query text: right only for queries without a top-level OR or keywords inside literals.
- Float literals of filters, and integers outside SQLite's 64-bit range: a printed `1` is read as an integer.
- Credential redaction and capability tables: regular expressions and finite tables.
