# High-performance API: verified models

The repository is a Go service over PostgreSQL, ClickHouse and Redis. This project models its five
hardest parts in Dafny and proves what they promise.

* **Checkpointed synchronisation** (`CdcSync`, `CdcSafety`, `CdcAccounting`, `CdcReach`,
  `CdcFaults`, `CdcExactness`, `CdcRetries`, `CdcManager`, `CdcSearch`). Any number of
  chunked, triggered and incremental runs read a checkpoint, fetch a key range, index it with retries
  through three ordered sends and write the checkpoint. `CdcSync` is the step system: new rows,
  index operations of other tables, failing sends, unread rows, an unreachable index and crashes may happen between any two steps. `CdcManager` holds
  the code as methods over a mutable manager; between any two accesses to shared state other runs take any
  number of steps, and every execution is proved to be a run of the step system. `CdcSearch` puts
  synchronisation and search together: what a query finds among the rows behind the checkpoint.
* **Inverted bitmap index and its paged search** (`GlobalIds`, `SearchIndex`, `SearchPaging`, `SearchWalk`,
  `SearchStops`, `SearchWords`).
  Hashes, bitmaps, packed 64-bit ids and the descending cursor agree with a plain scan of the records.
* **Keyset pagination** (`KeysetQuery`, `KeysetBuilders`, `KeysetPaging`, `KeysetWalk`, `KeysetKeys`,
  `KeysetOrder`, `KeysetOffset`, `JsonNumbers`). A query is an AST over numbered placeholders with a meaning on rows. The generated cursor
  conditions are the strict lexicographic order; walking cursors enumerates the table while it changes.
* **Ingestion loader** (`ColumnNames`, `ColumnSpelling`, `LoaderColumns`, `LoaderInsert`,
  `LoaderStream`, `LoaderKeeps`, `Loader`, `JoinKeys`). Column
  names, two routes for dropping columns, numbered multi-row inserts under a parameter bound, and streaming
  deduplication with a seen set that is cleared now and then.
* **Event pipeline and two-layer cache** (`EventPipeline`, `EventStages`, `LayeredCache`, `CacheHits`), and the **entity
  layer's** counting intersection (`EntitySearch`).

`Collections` holds facts about sequences, sets and multisets that several parts share. Lemmas carry
`{:induction false}`, so that every proof is the one written down.

## Where the code does less than it promises

Each of these is proved, with the exact condition where there is one.

* `BulkIndex` reports success while the index is unreachable, and a row that no fetch could read is passed by
  later ones, so the checkpoint can pass rows that were never sent (`UnreachableLosesRow`, `UnreadRowLost`).
  Main rows behind the checkpoint are safe exactly without these two kinds of fault (`MainSafeIff`).
* A crash between the sends leaves rows behind the recovered checkpoint without tokens or statistics
  (`CrashTearsRow`). Complete indexing is safe exactly without faults of any kind (`FullySafeIff`).
* Two runs on one table can count a row twice (`RacingRunsCountTwice`), and keys that do not decode as 64-bit
  integers are counted again with every incremental run (`IntKeyCountsAgain`). The counts are exact exactly for
  64-bit keys, one run at a time and no fault (`ExactlyOnceIff`).
* A slow run can move the checkpoint back (`RacingRunsMoveCheckpointBack`). It never goes back exactly for 64-bit
  keys, one run at a time and no crash (`NeverBackIff`).
* An incremental run over keys that do not decode as 64-bit integers sets the checkpoint to 0. Incremental runs
  alone catch up exactly for 64-bit keys (`IncrementalCatchesUpIff`); a chunked run does for all
  (`ChunkedCatchesUp`).
* The search walk stops at the first page whose limit+1 ids contain a tombstoned or unknown id
  (`LiveMatchNeverShown`; `SearchWalkCompleteIff` is the exact condition for completeness).
* Under a custom sort an updated row can be returned again (`MovedRowRepeats`). No key comes twice exactly when
  the key decides the order (`NoKeyTwiceIff`). No row content ever comes twice.
* `buildQuery` ignores the cursor of a table without a primary key (`NoKeyCompletesIff`), and a cursor keeps its
  place exactly when its sort values survive as doubles (`CursorKeepsPlaceIff`, `FirstLoss`).
* With all columns dropped the insert divides by zero; a load does so exactly when it has a row to insert and no
  column left (`InsertBatch`, `LoadCsvStreaming`, `LoadSheet`).
* Suffixed column names can collide with other columns' names (`NamesDistinctIff`, `ClashExample`).
* The join key of the loaders does not tell all rows apart: `StreamKeepsIff` and `SheetKeepsIff` say exactly
  which rows the CSV stream and the sheet loader can never lose.
* Counting is intersecting exactly with duplicate-free lists (`CountingIntersectsIff`), and a later batch replaces
  the entity lists of its tokens (`LatestBatchReplaces`).

## Model

| member | source | states |
|---|---|---|
| GlobalIds.ValidateTableIDs | internal/clickhouse/search_repository.go:789-799 | the start-up check passes exactly when no two registered tables share a 16-bit id |
| GlobalIds.BitForms | internal/clickhouse/search_repository.go:457-459 | on 64-bit words the shifts and masks are the divisions and remainders used in the model |
| GlobalIds.TableIdIsTop | internal/clickhouse/search_repository.go:450-455 | a table's id is the top 16 bits of the hash of its name |
| GlobalIds.UnpackPack | internal/clickhouse/search_repository.go:457-459 | packing a table id and a local id below 2^48 fits 64 bits, and both halves come back |
| GlobalIds.PackOrder | internal/clickhouse/cdc.go:691-693 | among packed ids of one table, numeric order is the order of the local ids |
| GlobalIds.DistinctIdsIffPackingInjective | internal/clickhouse/search_repository.go:789-799 | the start-up check passes exactly when packed ids identify (registered table, local id) pairs |
| GlobalIds.RowIdRoundTrip | internal/clickhouse/search_repository.go:775-787 | after a passed check a packed id leads back to its table and local id, in whatever order the registry lists tables |
| SearchIndex.PrepareBatches | internal/clickhouse/search_repository.go:327-389 | the three batches hold one main row per record with a key, a posting per indexable token, and one count per record and distinct hash |
| SearchIndex.StatRowsCount | internal/clickhouse/search_repository.go:365-387 | summed statistics of a list of records count, for each hash, the records that contain it |
| SearchIndex.SearchRepository.BulkIndex | internal/clickhouse/search_repository.go:271-399 | the three sends happen in order; a refused send leaves exactly the earlier ones in the store; nothing changes when the table cannot be prepared, nor when the index is unreachable, which reports success |
| SearchIndex.SearchRepository.DeleteRecord | internal/clickhouse/search_repository.go:695-720 | a delete puts a tombstone under the packed id and leaves bitmaps and statistics alone; key 0, a missing index and a refused insert change nothing, and an unreachable index reports success |
| SearchIndex.IndexedHasPosting | internal/clickhouse/search_repository.go:365-396 | once a record's token batch was accepted in any operation, all its postings stay in the bitmaps |
| SearchIndex.PostingHasRecord | internal/clickhouse/search_repository.go:365-396 | every posting comes from a record whose token batch was accepted |
| SearchIndex.IntersectBitmaps | internal/clickhouse/search_repository.go:486-515 | the folded bitmapAnd selects exactly the ids present in the bitmap of every query token |
| SearchIndex.BitmapMatchesVersions | internal/clickhouse/search_repository.go:486-523 | an id is selected exactly when the indexed versions of its row have all the query tokens between them, whatever sends failed and were retried |
| SearchIndex.BitmapMatchesScan | internal/clickhouse/search_repository.go:486-523 | with immutable rows the selected ids are exactly those of indexed records having, for each query token, an indexed token of the same hash |
| SearchIndex.IndexedHasMainRow | internal/clickhouse/search_repository.go:391-399 | a record with accepted tokens has its main row, also after partial failures and deletes |
| SearchIndex.PostingsHaveMainRows | internal/clickhouse/search_repository.go:391-399 | no id in any bitmap lacks the main row of the record it stands for |
| SearchIndex.RetryIsIdempotent | internal/clickhouse/search_repository.go:391-399 | two attempts at the same records leave main rows and bitmaps as the better attempt alone would |
| SearchWords.WordIsFound | internal/clickhouse/search_repository.go:353-365 | a row indexed with a word of at least two characters is selected by the word, whatever the case of the letters on either side |
| SearchWords.SearchFindsWords | internal/clickhouse/search_repository.go:461-523 | with hashes that tell the query's words from all others, the selected ids are exactly those of rows whose indexed versions have all the words between them, letter by letter up to case |
| SearchWords.StatsCountRecords | internal/clickhouse/search_repository.go:365-387 | the statistics sent for a word count the records that have it, each once |
| SearchWords.MainRowIsLatest | internal/clickhouse/search_repository.go:345-399 | the main row of a key is the one the latest operation on it wrote: the last record of the list with the key, or a delete's tombstone |
| SearchWords.UnwrittenHasNoRow | internal/clickhouse/search_repository.go:345-399 | a key that no operation wrote has no main row |
| SearchPaging.SearchFullHistoryBitmap | internal/clickhouse/search_repository.go:478-669 | a page shows the first limit live rows of the limit+1 largest matching ids below the cursor, in descending order, without the rows of tables whose lookup fails and without rows that do not scan or decode; HasMore and NextCursor say exactly whether one more was found; a failing bitmap query is an error |
| SearchPaging.GroupByTable | internal/clickhouse/search_repository.go:566-575 | grouping keeps the ids of each registered table in order and drops the others |
| SearchPaging.LiveIff | internal/clickhouse/search_repository.go:566-624 | an id is shown exactly when it is that of an undeleted, readable main row of a registered table whose lookup works |
| SearchPaging.FetchHits | internal/clickhouse/search_repository.go:577-631 | whichever lookup finishes first, whichever fail and whichever rows do not scan or decode, the rows collected are exactly the live, readable rows of the ids, each once |
| SearchPaging.SortHits | internal/clickhouse/search_repository.go:635-647 | the collected rows end up in strictly descending id order, none lost |
| SearchPaging.SortedAreLive | internal/clickhouse/search_repository.go:566-647 | grouping, concurrent lookup and sorting together filter the id list to its live ids, in order |
| SearchWalk.WalkDescends | internal/clickhouse/search_repository.go:525-538 | following NextCursor never repeats an id and never goes up, even if the index, its tombstones and the registry change between pages |
| SearchWalk.AnswersDeliver | internal/clickhouse/search_repository.go:649-669 | the rows of the answers of calls that follow one another's NextCursor are the ids the walk theorems speak of |
| SearchWalk.StableMatchDelivered | internal/clickhouse/search_repository.go:525-669 | while the index changes between pages and all matches are live, an id that matches at every page of a walk that ends is delivered |
| SearchWalk.UnchangedWalk | internal/clickhouse/search_repository.go:525-669 | over an unchanging index, the pages obtained by cursor are those of one descending list of the matching ids |
| SearchWalk.SearchWalkComplete | internal/clickhouse/search_repository.go:525-669 | with no tombstoned or unknown match, the concatenated pages are exactly all matching ids in descending order |
| SearchWalk.SearchWalkCompleteIff | internal/clickhouse/search_repository.go:649-669 | in general the walk delivers every live match exactly when no live one lies beyond the page window containing the first dead match, where the walk stops |
| SearchStops.LiveMatchNeverShown | internal/clickhouse/search_repository.go:649-669 | an index of three matches, the newest deleted, whose oldest match is live and is never delivered by any walk with one row a page |
| SearchWalk.WalkDelivers | internal/clickhouse/search_repository.go:649-669 | what the walk delivers: the live ids up to the end of the window that contains the first dead one |
| CdcSafety.StepKeepsInv | internal/clickhouse/cdc.go:342-632 | every step of any chunked, triggered or incremental run, every failure, new row and crash keeps the protocol invariant |
| CdcSafety.RunKeepsInv | internal/clickhouse/cdc.go:342-632 | the invariant holds in every reachable state of every interleaving |
| CdcSafety.CheckpointIsSafe | internal/clickhouse/cdc.go:388-504 | in every reachable state a row at or below the checkpoint has its own main row unless a fetch skipped it, and its tokens and statistics unless a crash tore it |
| CdcSafety.CheckpointMeansIndexed | internal/clickhouse/cdc.go:388-504 | without crashes, unread rows and unreachable index, every row at or below the checkpoint has main row, tokens and statistics, however runs race |
| CdcSafety.RecoveryKeepsMainRows | internal/clickhouse/cdc.go:650-693 | stopping between any two steps, the checkpoint recomputed from the largest live packed id still has every row at or below it in the main index |
| CdcSafety.RecoveredIsLargest | internal/clickhouse/cdc.go:650-693 | the recomputed checkpoint is the largest key of the rows whose main row is there and not deleted, 0 when there is none or the index cannot be read |
| CdcSafety.SendMainKeepsPrefix | internal/clickhouse/search_repository.go:391-393 | a main send keeps the main index a key prefix of the source |
| CdcSafety.NewestMembers | internal/clickhouse/cdc.go:554-564 | the incremental query returns at most its limit of rows, all rows from the last id up to the largest key it returns, and all newer ones when it returns fewer |
| CdcSafety.FaultlessSkipsNothing | internal/clickhouse/search_repository.go:271-274 | rows are skipped only by unread rows or an unreachable index |
| CdcSafety.NoCrashTearsNothing | internal/clickhouse/search_repository.go:391-399 | rows lack tokens or statistics behind the checkpoint only after a crash |
| CdcAccounting.RunCountsOnce | internal/clickhouse/cdc.go:459-504 | with one run at a time and no restart, statistics are sent for strictly increasing keys, each record once |
| CdcAccounting.StatisticsExactlyOnce | internal/clickhouse/search_repository.go:365-399 | the summed count of a token hash is the number of rows up to the sent mark that contain it, whatever sends failed and were retried |
| CdcAccounting.CountedRows | internal/clickhouse/search_repository.go:365-399 | the records counted are exactly the source rows up to the sent mark, in key order |
| CdcManager.Manager.constructor | internal/clickhouse/cdc.go:80-131 | a new manager starts in the initial state of the step system |
| CdcManager.Manager.SyncTableChunked | internal/clickhouse/cdc.go:342-526 | every execution, with any interference between accesses, is a run of the step system; success means every row up to the total read at the start is covered; an unknown table, a missing key or a failing index creation is rejected without a step |
| CdcManager.Manager.SyncChunks | internal/clickhouse/cdc.go:410-504 | the chunk loop follows the step system and on success covers everything up to the total |
| CdcManager.Manager.SyncChunk | internal/clickhouse/cdc.go:412-504 | one turn of the chunk loop: stop, skip, index and checkpoint, or dead-letter and abort |
| CdcManager.Manager.IngestWithRetries | internal/clickhouse/cdc.go:459-492 | success after fewer refused sends than there may be tries, or exactly as many refusals as tries and then the batch's range as the last dead letter; every execution is a run of the step system |
| CdcManager.Manager.BulkIndex | internal/clickhouse/search_repository.go:271-399 | one attempt performs the three sends in order and stops at the first refusal |
| CdcManager.Manager.IncrementalSync | internal/clickhouse/cdc.go:530-632 | every execution is a run of the step system; success covers everything up to the last row fetched and sets the checkpoint to the largest decoded 64-bit id |
| CdcManager.Manager.LoadCheckpoints | internal/clickhouse/cdc.go:650-689 | start-up recomputes the checkpoint from the main index, or leaves it at 0 when that cannot be read |
| CdcRetries.AttemptsCounted | internal/clickhouse/cdc.go:461-475 | in every reachable state a run with a batch in hand has had exactly as many refused sends since its fetch as it has had earlier attempts, fewer than there may be |
| CdcRetries.RefusalRetriesOrGivesUp | internal/clickhouse/cdc.go:461-492 | a refused send before the last leaves the run with the same batch, starting over with its first send; the one that exhausts the tries ends the run with the batch's range in the dead letters |
| CdcRetries.DeadLetterOnlyAfterRetries | internal/clickhouse/cdc.go:477-492 | nothing else adds a dead letter |
| CdcFaults.UnreachableLosesRow | internal/clickhouse/search_repository.go:271-274 | a reachable state from which an unreachable index moves the checkpoint past a row that was never sent |
| CdcFaults.UnreadRowLost | internal/clickhouse/cdc.go:434-455 | reachable states in which a row no fetch could read is passed by the checkpoint of a later row |
| CdcFaults.CrashTearsRow | internal/clickhouse/cdc.go:650-693 | a reachable state where a crash after the main send leaves a row at the recovered checkpoint without its tokens |
| CdcFaults.MainSafeIff | internal/clickhouse/cdc.go:388-504 | the runs drawn from a set of fault kinds all keep the main row of every row behind the checkpoint exactly when the set has neither unread rows nor an unreachable index |
| CdcFaults.FullySafeIff | internal/clickhouse/cdc.go:388-504 | they all keep main row, tokens and statistics exactly when the set has no fault of any kind |
| CdcFaults.RacingRunsCountTwice | internal/clickhouse/cdc.go:783-817 | a reachable state where two racing runs have counted one row twice |
| CdcFaults.RacingRunsMoveCheckpointBack | internal/clickhouse/cdc.go:783-817 | a reachable state from which a slow run moves the checkpoint backwards |
| CdcExactness.IntKeyCountsAgain | internal/clickhouse/cdc.go:586-591 | with keys that do not decode as 64-bit integers a single worker counts the same row again with every incremental run |
| CdcExactness.ExactlyOnceIff | internal/clickhouse/cdc.go:459-624 | over all runs drawn from a set of fault kinds, with or without racing, the statistics are those of the rows up to the sent mark exactly when keys decode as 64-bit integers, one worker runs, and there is no fault of any kind |
| CdcExactness.NeverBackIff | internal/clickhouse/cdc.go:492-624 | no step of any such run moves the checkpoint back exactly when keys decode as 64-bit integers, one worker runs and nothing crashes; unread rows and an unreachable index do no harm |
| CdcReach.RoundAdvances | internal/clickhouse/cdc.go:546-632 | from every state of the protocol, with 64-bit keys, one incremental run whose sends succeed moves the checkpoint forward, as long as it is below the largest key; no chunked step and no new row takes part |
| CdcReach.CatchesUp | internal/clickhouse/cdc.go:546-632 | with 64-bit keys, incremental runs alone bring the checkpoint to the largest key |
| CdcReach.IncrementalCatchesUpIff | internal/clickhouse/cdc.go:570-632 | incremental runs alone can bring the checkpoint to the largest key, from every state of the protocol, exactly when keys decode as 64-bit integers |
| CdcReach.ChunkedCatchesUp | internal/clickhouse/cdc.go:388-504 | one chunked run whose sends succeed brings the checkpoint to the largest key, from every state of the protocol and for keys of every type |
| CdcSafety.OtherLeavesOwn | internal/clickhouse/search_repository.go:271-399 | index operations of other tables leave this table's main rows and counts alone and remove nothing |
| CdcManager.LargestLiveID | internal/clickhouse/cdc.go:673-680 | the start-up query finds the largest packed id among live rows, 0 when there is none |
| CdcManager.DecodeRows | internal/clickhouse/cdc.go:441-456 | the decode loop keeps exactly the rows that decode, in order |
| CdcManager.LargestID | internal/clickhouse/cdc.go:570-592 | the running maximum over decoded 64-bit ids; other key types leave it at 0 |
| CdcSearch.PostingsComeFromSource | internal/clickhouse/search_repository.go:365-396 | in every reachable state every posting under the table's id comes from a token of a source row, with other tables indexed into the same bitmaps |
| CdcSearch.SyncedRowsAreFound | internal/clickhouse/cdc.go:388-504 | without crashes and unread rows, whatever runs race and whatever other tables are indexed: the table's ids a query selects at or below the checkpoint are exactly those of the source rows there that have the query's tokens |
| CdcSearch.OtherTableSelected | internal/clickhouse/search_repository.go:486-515 | ids of other tables with the token are selected as well, so the table id is needed |
| CdcSearch.SyncedRowIsLive | internal/clickhouse/search_repository.go:566-624 | a synchronised row that is not deleted is shown by the search, for registered tables with distinct ids, when its lookup works and it decodes |
| KeysetQuery.BeforeTransitive | internal/schema/query_builder.go:216-231 | ORDER BY with mixed directions is transitive |
| KeysetQuery.BeforeTotal | internal/schema/query_builder.go:216-231 | rows that differ in a sort column are ordered one way or the other |
| KeysetQuery.AfterIsBefore | internal/schema/query_builder.go:250-298 | being strictly after a row's position is coming strictly after the row in the ORDER BY |
| KeysetQuery.TriClosedForm | internal/schema/query_builder.go:276-295 | the branches of n columns bind n(n+1)/2 arguments |
| KeysetQuery.BuildCursorCondition | internal/schema/query_builder.go:250-298 | the nested loops emit one branch per column with consecutive placeholders and n(n+1)/2 arguments; an empty cursor gives no condition |
| KeysetQuery.CursorConditionIsAfter | internal/schema/query_builder.go:276-297 | evaluated with its placeholders against the emitted arguments, the condition holds of a row exactly when the row is strictly after the cursor position in lexicographic order |
| KeysetQuery.AfterSplits | internal/schema/query_builder.go:276-297 | strict lexicographic order is an OR over prefixes of equalities with one strict comparison |
| KeysetQuery.TwoColumnIsAfter | internal/database/repository.go:82-103 | the two-column condition is the strict lexicographic order on (sort column, key) |
| KeysetQuery.TwoColumnAgrees | internal/database/dynamic_repository.go:247-258 | the two-column form with two arguments and the general form with three hold of the same rows |
| KeysetBuilders.AddFilters | internal/database/dynamic_repository.go:226-231 | each filter adds one equality bound to its own argument, in whatever order the map is enumerated |
| KeysetBuilders.EncodeCursor | internal/schema/query_builder.go:30-72 | the cursor holds the row's values of exactly the columns that order the pages; an unknown table gives none |
| KeysetBuilders.BuildSelectQuery | internal/schema/query_builder.go:152-248 | the query selects the rows matching the usable filters strictly after the cursor, sorted by the same columns, with LIMIT bound to the last argument; missing tables and keys, undecodable cursors and unparsable values are errors |
| KeysetBuilders.CursorContinues | internal/schema/query_builder.go:30-72 | a cursor taken from a row continues strictly after that row in the next query's order, for keys of any number of columns |
| KeysetBuilders.BuildRecordsQuery | internal/database/repository.go:38-128 | the fixed-schema query, over its allowed sort and filter columns, continues strictly after the cursor's row, also when sorting by id names the id twice; invalid cursors and timestamps are errors |
| KeysetBuilders.BuildQuery | internal/database/dynamic_repository.go:216-306 | the dynamic query selects the rows with the filters' values; with a cursor whose record has the key and the custom sort column, those that come after it by value: by a larger key, or in the custom sort in the requested direction with the key as tiebreaker |
| KeysetBuilders.DynamicCondition | internal/database/dynamic_repository.go:234-274 | there is a condition exactly when the record has the sort columns, and it holds of the rows whose values come after the record's: a larger key, or the custom sort in the requested direction |
| KeysetBuilders.OrderOnValues | internal/database/dynamic_repository.go:276-300 | the ORDER BY on values: the key ascending, or the custom sort column in the requested direction and then the key in the same direction, also when the sort column is the key |
| KeysetBuilders.UsableFilters | internal/schema/query_builder.go:200-206 | filters that are blank or on columns that are not sortable are left out, the others all apply |
| KeysetOrder.DeliveredInOrder | internal/database/dynamic_repository.go:276-303 | everything a walk delivers: without a usable sort column the keys go up; with one its values go the requested way, and where they are equal so do the keys |
| KeysetOrder.PageInOrder | internal/database/dynamic_repository.go:276-303 | the same for one page, over any table |
| KeysetOrder.SelectInOrder | internal/schema/query_builder.go:216-231 | the schema-driven order on values: the sort column unless it is none or in the key, then the key columns, all in the requested direction |
| KeysetOrder.RecordsInOrder | internal/database/repository.go:38-128 | the fixed-schema order on values: one of the allowed sort columns, otherwise the id, then the id |
| KeysetPaging.Execute | internal/database/dynamic_repository.go:52-56 | the query semantics assumed of the database: the first rows of a listing that respects ORDER BY |
| KeysetPaging.GetRecords | internal/database/dynamic_repository.go:39-107 | a page holds the first limit of the remaining rows; HasMore tells whether any are left; the next cursor is the last row with the rows counted so far; a failing query is an error |
| KeysetWalk.DeliveredAscends | internal/database/dynamic_repository.go:39-107 | everything a walk delivers is strictly ascending in the page order, while rows are inserted, deleted and updated |
| KeysetWalk.StableRowDelivered | internal/database/dynamic_repository.go:234-303 | every matching row present and unchanged through a whole completed walk is returned, whatever happens to the others |
| KeysetWalk.RowOnce | internal/database/dynamic_repository.go:39-107 | no row is returned twice, whatever is inserted, deleted or updated between the pages |
| KeysetKeys.NoKeyTwice | internal/database/dynamic_repository.go:39-107 | no key is returned twice when no row moves forward in the page order, in particular when rows are only inserted and deleted |
| KeysetKeys.MovedRowRepeats | internal/database/dynamic_repository.go:234-258 | a completed walk in which a delivered row, updated to a sort value beyond the cursor, is returned again |
| KeysetKeys.NoKeyTwiceIff | internal/database/dynamic_repository.go:234-303 | for rows inserted, deleted and updated at will, no walk of a query returns a key twice exactly when the key decides its order: it is the only sort term, or a filter fixes the sort column or the key |
| KeysetWalk.DeliveredMatches | internal/database/dynamic_repository.go:226-231 | every row returned was in the table at its page and matches the filters |
| KeysetWalk.PageContinues | internal/database/dynamic_repository.go:81-99 | each page is chosen from the rows strictly after the last row of the page before |
| KeysetOffset.AnswerOfListing | internal/database/repository.go:357-367 | a limited query over a totally ordered listing returns its prefix |
| KeysetOffset.StaticWalkIsOffsetPaging | internal/database/dynamic_repository.go:81-99 | over an unchanging table page i is LIMIT limit OFFSET i*limit, its cursor counts the rows before it, and HasMore holds exactly when rows are left |
| KeysetOffset.OffsetCountsDelivered | internal/database/dynamic_repository.go:81-99 | the cursor's offset always equals the rows delivered so far |
| KeysetOffset.CompletedDeliversAll | internal/database/dynamic_repository.go:39-107 | a completed walk delivers the whole filtered, sorted table |
| KeysetOffset.PageCount | internal/database/dynamic_repository.go:81-84 | a completed walk has max(1, ceil(n / limit)) pages |
| KeysetOffset.ListingExists | internal/database/repository.go:357-367 | every keyed table has a listing in the page order |
| KeysetOffset.WalkIsOffsetPaging | internal/database/dynamic_repository.go:81-99 | over an unchanging table a walk is LIMIT/OFFSET paging through one listing of it, and a completed one delivers it in max(1, ceil(n / limit)) pages |
| KeysetOffset.NoKeyCompletesIff | internal/database/dynamic_repository.go:234-237 | without a primary key the cursor is ignored, and a walk over an unchanging table completes exactly when its matching rows fit one page |
| KeysetOffset.CursorKeepsPlaceIff | internal/database/dynamic_repository.go:234-274 | a decoded cursor keeps its place for every possible row exactly when all its sort values survive the round trip through a double, for any sort order |
| JsonNumbers.ExactBelow | internal/schema/query_builder.go:113-121 | integers up to 2^53 in size survive a JSON cursor |
| JsonNumbers.ExactIff | internal/schema/query_builder.go:113-121 | an integer survives exactly when it is a multiple of the spacing of doubles at its size |
| JsonNumbers.NearestIs | internal/schema/query_builder.go:113-121 | a value is read back as a multiple of the spacing at most half of it away, the even one in the middle, and symmetrically for negative values |
| JsonNumbers.SpacingIs | internal/schema/query_builder.go:113-121 | the spacing is the power of two that leaves 53 significant bits |
| JsonNumbers.FirstLoss | internal/schema/query_builder.go:113-121 | 2^53 + 1 comes back as 2^53 |
| ColumnNames.DecimalRoundTrip | internal/pipeline/cleaner.go:45 | a decimal suffix is all digits and determines its number |
| ColumnNames.BaseNameValid | internal/pipeline/cleaner.go:27-40 | every cleaned base name is a lower-case identifier starting with a letter |
| ColumnSpelling.BaseNameSpells | internal/pipeline/cleaner.go:27-40 | the base name is the header's ASCII letters and digits, lower-cased and in order, with one underscore exactly where other characters lie between two of them; "col_" goes before a leading digit, and a header without letters and with at most one run of digits becomes column_<idx> |
| ColumnNames.CleanColumnNames | internal/pipeline/cleaner.go:19-54 | one valid name for each column at its position: the base the first time, then the base with 1, 2, ... |
| ColumnNames.SuffixRecoverable | internal/pipeline/cleaner.go:45 | base and number can be read back from a suffixed name |
| ColumnNames.NamesDistinctIff | internal/pipeline/cleaner.go:42-51 | the names are distinct exactly when no column's base name is the suffixed name given to another column |
| ColumnNames.ClashExample | internal/pipeline/cleaner.go:42-51 | the header a, a, a_1 yields a duplicate |
| LoaderColumns.IdentifyEmptyColumns | internal/pipeline/cleaner.go:81-105 | a column is dropped exactly when more than 99 of 100 rows have nothing in it |
| LoaderColumns.MissingIs | internal/pipeline/cleaner.go:88-97 | nothing is in a column for the rows that are too short or have only white space there |
| LoaderColumns.CellIs | internal/pipeline/loader.go:557-601 | what is inserted: NULL beyond the row's end and for white space only, else the field between its outer white space |
| LoaderColumns.KeptIs | internal/pipeline/cleaner.go:108-134 | the kept positions are exactly those not dropped, in order |
| LoaderColumns.RemoveEmptyColumns | internal/pipeline/cleaner.go:108-134 | header and rows are projected to the kept positions, rows of any length included |
| LoaderColumns.RemoveColumnsFromSchema | internal/pipeline/cleaner.go:138-154 | the map sends each new column to the position of the kept column it stands for |
| LoaderColumns.RoutesAgree | internal/pipeline/loader.go:543-601 | both routes insert the same value for every row and kept column, for rows shorter or longer than the header |
| LoaderInsert.ExecuteBatch | internal/pipeline/loader.go:538-609 | placeholder r*cols+c+1 is bound to row r's value for column c |
| LoaderInsert.InsertBatch | internal/pipeline/loader.go:500-533 | the batches together are the rows in order, each within 65000 parameters unless a single row has more, and all but the last so full that one more row would exceed that; a failed statement leaves a prefix; rows without columns, and only they, end in the division by zero before anything is sent |
| LoaderInsert.RoutesInsertSame | internal/pipeline/loader.go:543-601 | whole rows contribute the same values by either route |
| LoaderStream.SameKeySameEmptiness | internal/pipeline/loader.go:210-219 | rows of one width with the same join key are both empty or both not |
| LoaderStream.ScannedStreams | internal/pipeline/loader.go:189-238 | what the stream keeps after any records satisfies the deduplication invariant, resets included |
| LoaderStream.KeptRows | internal/pipeline/loader.go:189-238 | kept rows are records in order, none empty; two with one key have a reset between them; every non-empty record of the fixed width has a kept row with its key |
| LoaderStream.ScannedGrows | internal/pipeline/loader.go:189-238 | later records only add rows at the end |
| LoaderKeeps.KeptIff | internal/pipeline/loader.go:209-237 | a record is kept exactly when it has more than white space and no record since the seen keys were last cleared has its key; they are cleared when a chunk ends on a multiple of 100000 rows |
| Loader.LoadCsvStreaming | internal/pipeline/loader.go:185-238 | the load inserts exactly the kept rows, in chunks that are all full but the last, and counts them; a failed insert leaves a prefix; it divides by zero exactly when a row is kept and no column is left |
| Loader.LoadSheet | internal/pipeline/loader.go:333-357 | a sheet load inserts the first row of each key, counted; a failed insert leaves a prefix; it divides by zero exactly when there is a row and no column is left |
| Loader.FirstByKeyIs | internal/pipeline/loader.go:341-349 | the sheet's deduplication keeps one row for each key, the first with it, in order |
| JoinKeys.KeyInjective | internal/pipeline/loader.go:210 | a row of one field, or without separators in its fields, shares its key with no other row of its width |
| JoinKeys.KeyUniqueIff | internal/pipeline/loader.go:210 | a row's key is its own among the rows of its width exactly when it has at most one field or no separator in its fields |
| JoinKeys.NotLost | internal/pipeline/loader.go:189-238 | such a non-empty record is itself kept, whatever the other records hold |
| JoinKeys.StreamKeepsIff | internal/pipeline/loader.go:189-238 | these are exactly the non-empty records that no load can lose |
| JoinKeys.CollidingRows | internal/pipeline/loader.go:210 | two different rows of one width can share a join key |
| JoinKeys.SheetKeepsIff | internal/pipeline/loader.go:341-349 | the rows no sheet load can lose are exactly those of a single non-empty field without a separator, since sheet rows differ in width |
| EventPipeline.StepKeepsInv | internal/pipeline/cdc_pipeline.go:139-204 | every step of poller, batcher and workers keeps order, conservation and all bounds |
| EventPipeline.Conservation | internal/pipeline/cdc_pipeline.go:139-204 | in every reachable state the fetched events are, in order, those of all batches sent, the buffer, the channel and the poller's hands; every batch has 1 to 500 events |
| EventPipeline.InFlightBound | internal/pipeline/cdc_pipeline.go:48-52 | at most 62000 events are in the channels, the buffer and the workers' hands |
| EventPipeline.NeverStuck | internal/pipeline/cdc_pipeline.go:146-204 | while anything is left some goroutine can move without a new query |
| EventPipeline.RunsAreShort | internal/pipeline/cdc_pipeline.go:146-204 | without new queries every schedule ends after a bounded number of steps |
| EventPipeline.StuckMeansDone | internal/pipeline/cdc_pipeline.go:146-204 | when nothing can move, the fetched events are exactly those of the finished batches |
| EventStages.Pipeline.constructor | internal/pipeline/cdc_pipeline.go:42-55 | the pipeline starts empty |
| EventStages.Pipeline.Poll | internal/pipeline/cdc_pipeline.go:92-137 | the poller takes over the rows of its next query |
| EventStages.Pipeline.PushEvent | internal/pipeline/cdc_pipeline.go:139-142 | a push blocks exactly when the channel is full and otherwise is one step of the system |
| EventStages.Pipeline.ReceiveEvent | internal/pipeline/cdc_pipeline.go:165-169 | receiving appends to the buffer and starts a flush exactly when it is full |
| EventStages.Pipeline.TimerFires | internal/pipeline/cdc_pipeline.go:170-171 | the timer starts a flush exactly when the buffer is not empty |
| EventStages.Pipeline.SendBuffer | internal/pipeline/cdc_pipeline.go:152-158 | a flush blocks exactly when the batch channel is full, else sends the buffer and starts a new one |
| EventStages.Pipeline.WorkerReceives | internal/pipeline/cdc_pipeline.go:178-181 | an idle worker takes the oldest batch |
| EventStages.Pipeline.WorkerIndexes | internal/pipeline/cdc_pipeline.go:183-204 | a worker makes one index call for each table of its batch and finishes it whatever the index answers |
| EventStages.GroupByTable | internal/pipeline/cdc_pipeline.go:183-186 | each table of the batch gets its records in the batch's order |
| EventStages.GroupsPartition | internal/pipeline/cdc_pipeline.go:183-204 | the index calls contain each event exactly as often as the batch |
| LayeredCache.StepKeepsInv | internal/cache/multilayer_cache.go:37-96 | every Get, Set, Delete, cleanup and passage of time keeps the cache invariant, with Redis up or down |
| LayeredCache.RunKeepsInv | internal/cache/multilayer_cache.go:37-96 | the invariant holds after any sequence of operations of any instances |
| LayeredCache.ServedIsRecent | internal/cache/multilayer_cache.go:37-96 | a served value is at most its Redis TTL plus the local TTL less two nanoseconds old, and every later write that reached Redis is by another instance and younger than the local TTL |
| LayeredCache.MissMeansGone | internal/cache/redis.go:39-58 | with Redis up a miss means the last write that reached it is a Delete or has expired |
| LayeredCache.StalenessIsReached | internal/cache/multilayer_cache.go:37-96 | a run in which the age bound is reached exactly |
| LayeredCache.VisibilityIsReached | internal/cache/multilayer_cache.go:37-96 | a run in which an instance serves the older value when the other's write is one nanosecond short of the local TTL old, the last moment the bound allows |
| CacheHits.OwnValueIsServed | internal/cache/multilayer_cache.go:37-88 | a value set through an instance is returned for the local TTL, or a shorter TTL of its own, with Redis up or down, until the instance writes the key again |
| CacheHits.FetchedValueIsServed | internal/cache/multilayer_cache.go:37-61 | a value that a Get had to fetch from Redis is returned for the local TTL from then on |
| CacheHits.OwnValueIff | internal/cache/multilayer_cache.go:37-88 | with Redis down an instance that has not read the key from Redis since its Set returns it exactly until its lifetime ends |
| CacheHits.OwnDeleteMisses | internal/cache/multilayer_cache.go:90-96 | with Redis down an instance that deleted the key and has not read it from Redis since misses |
| CacheHits.SharedValueIff | internal/cache/redis.go:39-58 | an instance without a fresh entry of its own finds the last value set through Redis exactly until its TTL, or the default one, has passed |
| CacheHits.SharedDeleteMisses | internal/cache/redis.go:39-58 | after a Delete that reached Redis an instance without a fresh entry of its own misses |
| LayeredCache.MultiLayerCache.constructor | internal/cache/multilayer_cache.go:21-35 | a zero local TTL becomes one minute |
| LayeredCache.MultiLayerCache.Get | internal/cache/multilayer_cache.go:37-61 | local while fresh, else Redis with a refill, else a miss that forgets the stale entry |
| LayeredCache.MultiLayerCache.Set | internal/cache/multilayer_cache.go:63-88 | both layers get the value, the local one for the shorter of its TTL and the given one |
| LayeredCache.MultiLayerCache.Delete | internal/cache/multilayer_cache.go:90-96 | both layers forget the key |
| LayeredCache.MultiLayerCache.Cleanup | internal/cache/multilayer_cache.go:118-131 | one sweep removes exactly the expired entries |
| EntitySearch.ExtractTokens | internal/clickhouse/entity_layer.go:223-240 | the tokens are exactly the usable trimmed words, each once |
| EntitySearch.TrimPunctuationIs | internal/clickhouse/entity_layer.go:223-240 | a word is used without its outer punctuation |
| EntitySearch.BuildTokenMap | internal/clickhouse/entity_layer.go:284-289 | each token maps to the ids of its occurrences in order |
| EntitySearch.ListsAreSets | internal/clickhouse/entity_layer.go:284-289 | for distinct ids a token's list names exactly the entities with the token, each once |
| EntitySearch.IntersectEntityIDs | internal/clickhouse/entity_layer.go:420-449 | for any lists: no duplicates, and exactly the ids of the first list whose occurrences count up to the number of lists |
| EntitySearch.CountingIntersects | internal/clickhouse/entity_layer.go:428-447 | with later lists duplicate-free the count is full exactly for the ids in every list, for any number of lists |
| EntitySearch.CountingIntersectsIff | internal/clickhouse/entity_layer.go:428-447 | counting against a list is intersecting with it, whatever the first list, exactly when the list is duplicate-free |
| EntitySearch.DuplicatesMislead | internal/clickhouse/entity_layer.go:428-447 | with duplicates an id missing from a list can still be counted in full |
| EntitySearch.EntityRepository.BulkIndexEntities | internal/clickhouse/entity_layer.go:251-317 | the entities are sent first, then the token lists; a batch replaces the lists of its tokens and no others, a refused send leaves what was sent before it, and a disabled repository reports success and changes nothing |
| EntitySearch.EntityRepository.SearchIds | internal/clickhouse/entity_layer.go:324-364 | with duplicate-free lists the result is exactly the ids listed for every query token that is indexed and whose lookup works, each once; text without a usable word is an error, and so is a disabled repository |
| EntitySearch.EntityRepository.SearchThreeLayer | internal/clickhouse/entity_layer.go:324-418 | of the common ids at most twice the limit are looked up, and the first rows found are returned up to the limit, with the number looked up |
| EntitySearch.OneBatchSearch | internal/clickhouse/entity_layer.go:336-360 | after one batch a search finds exactly the entities having every query token that occurs in the batch |
| EntitySearch.LatestBatchReplaces | internal/clickhouse/entity_layer.go:103-112 | across batches an entity stays listed exactly when the latest batch with the token names it again |

## Left out

What the theorems assume of the surroundings, and what is not modelled.

- In the synchronisation, source rows are immutable and a new row's key exceeds all existing ones; keys are positive and below 2^48. Updates in place and out-of-order commits are outside the model, since the protocol does not cover them.
- One step system covers the checkpoint of one table; all other tables appear as index operations on the shared store. `parallelInitialSync`'s semaphore only limits how many runs there are.
- The chunk size, the batch size and the number of retries are positive; `NewCDCManager` replaces 0 by defaults.
- A failing `InsertDeadLetter` is only logged by the code; the model takes the insert as one step with the failure of the last attempt. Errors before the first send count as a refused main send.
- Each send takes the whole batch or nothing, and appending to a batch does not fail. ClickHouse's merging tables are maps and sets; merge timing, async inserts and mutations are out.
- `extractSearchableTokens` is represented by the token list of a record; `strings.ToLower` and the tokenizer are ASCII.
- The hash functions FNV and MD5 are uninterpreted; hash equality is what the theorems speak of.
- `CDCManager.Stop` and `Restart`, `ProcessEvent`, `IndexRecord` and status counters: outside the recovery proofs, since they bypass the key order.
- Column values in queries are integers, standing for any totally ordered type; NULL values are not modelled, as the generated conditions do not cover them. A comparison with a column the row lacks is false.
- `KeysetBuilders.EncodeCursor`: asks for a row that has the sort columns; null sort values are outside the model, as the generated conditions do not cover them.
- `KeysetBuilders.BuildSelectQuery`: cursor values are numbers or do not parse. Nothing in the repository follows its cursors, so the walk theorems are about `GetRecords` of the dynamic repository.
- `KeysetPaging.GetRecords`: rows that fail to decode are dropped by the code and not modelled; a limit of at least 1 is what the handler passes, and the walk theorems ask for it.
- Column renaming of `FlattenJSON`, `InferColumnTypes` (which makes every column TEXT, the only type the insert code then meets), header, encoding and delimiter detection, and table naming.
- `LoaderColumns.IdentifyEmptyColumns`: the ratio is a real number where the code divides doubles; for fewer than 10^13 rows no rounding crosses 0.99.
- `Loader.LoadSheet`: the chunk size is positive; with 0 the sheet loop of the code would not advance.
- `Loader.LoadCsvStreaming`: takes the records the CSV reader returns without error; the reader itself enforces the fixed width of the first record.
- `Pipeline.Stop` never returns cleanly in the code, since its channel is never created; the model has no stop. The poller's query and the timer are inputs.
- Concurrent operations of the cache on one instance are taken as atomic, TTLs as positive, and clocks as one clock; JSON round trips of cached values are the identity.
- `EntitySearch.EntityRepository.SearchThreeLayer`: which rows are found and decode is an input, and only their ids are returned. `strings.Fields` and Unicode lower case are inputs.
- HTTP handlers, authentication, configuration, web pages and bots.
