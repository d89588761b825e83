# Verification of the MySQL data layer

The layer moves entities between a data hub and MySQL tables. This project models the parts of it
that carry state or build SQL text, and proves what they promise.

**Writing.** A writer buffers entities, keeps for every id the newest write of the batch, and flushes
at a threshold: one block that deletes every id it touched, then one block that inserts the winners.
`Writer` is the class with its buffers and its string building; `WriterSpec` says what each call sends;
`Database` is a small database behind a transaction object, which *parses the text it is sent*
(`Lexer`, `Statements`, `SqlText`). Failing statements, the clock and the order in which a map is ranged
over are decided by an environment the theorems quantify over. `Gathering` says which entities a batch
stands for, `Batches` what it means, `FlushMeaning` and `FlushEffect` what its text does to the table,
`WriterRuns` what whole runs do.

**Reading.** A read asks for the largest timestamp and then for the rows after its token and up to that
timestamp. `Reader` builds the query text, `BaseQueries` says which columns it asks for, `Select` parses
and evaluates it, `ReadMeaning` says which rows a read delivers and what its token stands for
(`Timestamps`, `Base64`). `Replica` interleaves writers' blocks with the two queries of reads and follows a
consumer that stores what it is given. `WriterReplica` shows that the writer's calls are such blocks.

**Configuration and the legacy layer.** `Reconfiguration` replaces the live datasets by those of a new
configuration. `LegacyConfig` is the configuration cache and the connection behind it, both guarded by a
digest. `LegacyPost` cuts a posted stream into chunks and sorts the field mappings in place (`Sorting`).
`LegacyRows` folds a scanned row into an entity.

Main results, hardest first:

* `Replica.ReplicaFollows`: after any interleaving of writers and reads, a read whose two queries no
  writer separates leaves the consumer with exactly the current row of every id in the table.
  `Replica.SurvivorsDelivered` and `Replica.NothingTwice` say what holds when writers do get in between;
  `Replica.BlockIsCommit` puts the writer's own blocks into these runs, and
  `WriterReplica.StreamReachesConsumer` goes from the stream of entities to the consumer.
* `FlushEffect.FlushMeans`: a flush, as text, does to the table what the batch means, whatever the map
  order, collides with no row, fails only where the environment fails, and never shows a part of a block.
* `WriterRuns.FailurePrefix`: whatever fails and whatever is called after, the table is the effect of a
  prefix of whole batches, possibly with the delete half of the next one.
* `WriterRuns.StreamStores`: the row of every id after a run without failures, cell by cell, in terms of the
  entities of the stream.
* `WriterRuns.BatchedEqualsUpsert`: exactly when a batched run leaves what applying each write at once
  leaves; `WriterRuns.OrderedRunEqualsUpsert` is the exact condition for ordered batches.
* `ReadMeaning.ReadMeans`: exactly when the data query of a read is a query, and exactly when it selects the
  rows of the base query that lie in the window, for every limit.
* `LegacyPost.PostHandler` and `LegacyRows.ToEntity`: which statements a posted stream runs, and which entity
  a row becomes, stated on the entities and on the cells.
* `LegacyConfig.CacheIsTransparent`: the cache is invisible exactly when digests separate configurations.

Four claims one might make about the code are false, and the model keeps the code's behaviour:

* A delete that follows an insert of its id in one batch is lost (`Batches.LostDelete`;
  `WriterRuns.OrderedRunEqualsUpsert` has the exact condition for runs).
* A failed flush does not make every later call report an error. After a failed flush in `Write` it does
  (`WriterRuns.FailedWriteIsSticky`); after a failed flush in `Close` with fewer writes pending than the
  threshold, a later `Write` reports success and stores nothing (`WriterRuns.SilentWriteAfterClose`;
  `WriterRuns.EndedCall` has the exact condition). The table stays as it is in every case.
* The window joined to a `WHERE` with `OR` narrows only its last alternative
  (`ReadMeaning.DisjunctionLeaks`; `ReadMeaning.ReadMeans` has the exact condition).
* `ensureConnection` can report success on a closed handle (`LegacyConfig.ClosedHandleReported`;
  `LegacyConfig.EnsureGuardsConnection` has the exact condition).

## Model

| member | source | states |
|---|---|---|
| RowItems.RowItem.SetValue | internal/layer/mysql.go:91-95 | The item stays consistent: its columns and values are parallel, its map agrees with them, and it gained exactly this pair at the end |
| RowItems.RowItem.GetPropertyNames | internal/layer/mysql.go:101-103 | The names are the columns in order, and exactly the keys of the map |
| RowItems.MapHasNames | internal/layer/mysql.go:91-95 | A name is in the item's map iff some column has it, and then the map holds one of that column's values |
| RowItems.MapHoldsLast | internal/layer/mysql.go:91-95 | The map holds for every name the value of the last call that set it |
| Batches.IdsExact | internal/layer/write.go:106-149 | The ids to delete are exactly those of the batch, without duplicates, no more than the batch size; pending inserts are among them; the size is 0 iff nothing is pending |
| Batches.WinnerIsNewest | internal/layer/write.go:118-149 | An id has a pending insert iff the batch holds a non-deleted write of it, and the insert is the last of those with the greatest recorded time |
| Batches.NewestIsUnique | internal/layer/write.go:124-134 | There is one such write, so the buffer is determined by the history of the batch |
| Batches.BatchEqualsSimple | internal/layer/write.go:211-275 | Deleting all ids and inserting the winners equals delete-then-insert of each write in turn iff the winner of every id leaves what its last write asks for |
| Batches.OrderedBatchEqualsSimple | internal/layer/write.go:118-149 | If recorded times do not decrease for an id, the two forms agree iff no id's last write is a delete after a non-deleted write |
| Batches.BatchesEqualSimple | internal/layer/write.go:211-275 | For a run of batches the two forms agree iff, for every id, the winner in the last batch that touches it leaves what its last write asks for |
| Batches.OrderedBatchesEqualSimple | internal/layer/write.go:118-149 | If every batch is ordered, iff no id has a delete that its last batch loses |
| Batches.LostDelete | internal/layer/write.go:119-120 | An insert followed by a delete of the same id in one batch leaves the row in, unlike the simple form |
| Batches.CutFlattens | internal/layer/write.go:151-159 | The batches of a run are the accepted writes, cut up and in order |
| Batches.CutBounds | internal/layer/write.go:151-159 | Every batch of a run is non-empty and covers at most max(threshold, 1) ids |
| Batches.SizeCounts | internal/layer/write.go:106-149 | The size is the number of writes of the batch that replaced a pending insert, started one, or were deletes |
| Batches.CutExact | internal/layer/write.go:151-159 | Every batch of a run ends with the write that makes its size reach the threshold, and only the last one may end before |
| Gathering.AcceptIff | internal/layer/write.go:98-104 | An entity is accepted under an id iff it maps and the last value set for the id column is that string |
| Gathering.AcceptedAs | internal/layer/write.go:97-149 | An accepted write has the id, the deleted flag, the recorded time and the cells of its own entity |
| Gathering.GathersStep | internal/layer/write.go:97-149 | Over all entities taken since the last flush: an id is to be deleted iff some entity holds it; it has a pending insert iff some such entity is not deleted, and the insert has the recorded time and the cells of one whose recorded time is greatest and which is the latest of those |
| Gathering.CutGathers | internal/layer/write.go:97-161 | The batches of a run gather consecutive parts of the stream of entities in this sense, and nothing is left but entities that hold no id |
| Batches.ThresholdIrrelevant | internal/layer/write.go:36-44 | If recorded times do not decrease for an id and no delete follows an insert of it over the whole stream, the result is that of the simple form for every threshold |
| Writer.MysqlWriter.constructor | internal/layer/write.go:56-69 | A new writer has empty buffers that satisfy the buffer invariant |
| Writer.MysqlWriter.MapEntityToItem | internal/layer/write.go:98-99 | The mapper's SetValue calls fill a new item with exactly the cells, in order |
| Writer.MysqlWriter.Write | internal/layer/write.go:97-161 | Keeps the buffer invariant and leaves the buffers that the entities taken since the last flush ask for, by their ids, flags, recorded times and cells; a flush starts anew; the connection is the one the batch semantics asks for, and an error is reported iff it does; it panics iff the mapped id column is missing or holds no string, and then nothing has changed |
| Writer.MysqlWriter.ValidIsPending | internal/layer/write.go:106-149 | Between calls an id is listed for deletion iff an entity taken since the last flush holds it, and its pending entry is that of the newest and latest such entity that is not deleted, with the text of an INSERT of its cells |
| Writer.MysqlWriter.Buffer | internal/layer/write.go:106-149 | The buffers stay exactly those of the batch with this write appended: ids, winners with their own statements, and size |
| Writer.MysqlWriter.RememberId | internal/layer/write.go:106-116 | The search loop adds the id at the end unless it is already there |
| Writer.MysqlWriter.RememberInsert | internal/layer/write.go:122-149 | The entry is replaced unless the pending one is newer, with the INSERT text of this very item, and only then does the size grow |
| Writer.MysqlWriter.Insert | internal/layer/write.go:276-325 | The string built piece by piece is the text of the item's INSERT statement, stored with the entry of its id; every other entry stays |
| Writer.MysqlWriter.ColumnText | internal/layer/write.go:283-293 | The loop and the since column give the list of lower-cased columns of that statement |
| Writer.MysqlWriter.ValueText | internal/layer/write.go:297-315 | The loop and NOW give the list of values of that statement, one for each column |
| Writer.MysqlWriter.FlushBuffers | internal/layer/write.go:211-275 | Sends the delete block and then the insert block of the batch, and nothing when nothing is pending |
| Writer.MysqlWriter.SendDeletes | internal/layer/write.go:216-245 | Sends the text of one DELETE of all ids of the batch in a block of its own, with a rollback when it fails |
| Writer.MysqlWriter.SendInserts | internal/layer/write.go:247-274 | Sends the text of the winners' INSERTs, in the order of the map, in a block of its own, with a rollback when it fails |
| Writer.MysqlWriter.DeleteText | internal/layer/write.go:217-229 | The loop over the ids gives the text of one DELETE of all ids of the batch |
| Writer.MysqlWriter.InsertText | internal/layer/write.go:250-256 | The loop over the map gives the INSERT statements of the winners, in the order of the iteration |
| Writer.MysqlWriter.Close | internal/layer/write.go:163-177 | Flushes and, if that succeeds, commits; the buffers stay as they are |
| FlushMeaning.PendingTextReadsBack | internal/layer/write.go:276-325 | The text of a pending write parses back to its own INSERT, with as many columns as values, and makes a row that holds every cell by value under its lower-cased column, plus the time of the flush in the configured precision |
| FlushMeaning.ContentRepresents | internal/layer/write.go:179-209 | What a write stores, by value: a string, an integer, true or false as text, nil as NULL; under a time mapping the date and clock of RFC 3339 text, with its zone for a timestamp, and NULL for text that is none |
| FlushMeaning.ConversionExact | internal/layer/write.go:179-199 | The first mapping of the column with one of the two time types decides how it is converted, and without one it is not |
| FlushMeaning.DeleteRemoves | internal/layer/write.go:217-229 | The DELETE of a list of ids removes exactly the rows with those ids |
| FlushMeaning.InsertsRun | internal/layer/write.go:250-261 | Inserting ids that are not in the table, in any order, fails only where the environment makes a statement fail, and stores each row under its id |
| SqlText.BlockTextRoundTrip | internal/layer/write.go:231-261 | The text of a BEGIN ... COMMIT block parses back to exactly its statements |
| Basics.NatTextExact | internal/layer/write.go:179-209 | A number is written with its decimal digits, each at its power of ten, without leading zeros |
| FlushEffect.DeleteHalf | internal/layer/write.go:216-245 | The delete block removes exactly the rows of the batch's ids, or fails, changes nothing and ends the transaction |
| FlushEffect.InsertHalf | internal/layer/write.go:247-274 | The insert block adds exactly the winners, whatever the map order, with stamps read during the block, or fails, changes nothing and ends the transaction |
| FlushEffect.FlushMeans | internal/layer/write.go:211-275 | A flush succeeds iff no statement is made to fail; then the table is the batch applied to it; otherwise others see the table before or only the delete half |
| WriterRuns.WritesAreOps | internal/layer/write.go:97-102 | Entities that do not map leave no trace: a run is the run of the accepted writes |
| WriterRuns.SizeBelowThreshold | internal/layer/write.go:151-160 | After every successful Write the size is below max(threshold, 1) and bounds the number of pending ids |
| WriterRuns.CalmRun | internal/layer/write.go:97-177 | Without failures, writes followed by Close make the table the result of applying every batch in turn, for any threshold and map order |
| WriterRuns.StreamStores | internal/layer/write.go:97-177 | Without failures, for every id: the last batch that an entity with it falls into decides its row, which holds by value the cells of the newest and latest such entity that is not deleted, or is missing without one; an id that no entity holds keeps its row |
| WriterRuns.CloseSucceedsIff | internal/layer/write.go:163-177 | Close reports success iff none of its statements and not the commit is made to fail; then the pending batch is applied, and otherwise nothing, its delete half or all of it shows |
| WriterRuns.BatchedEqualsUpsert | internal/layer/write.go:97-177 | Without failures, writes followed by Close leave the table that applying each write at once leaves, apart from stamps, iff for every id, in the last batch that touches it, the newest non-deleted write leaves what the last write asks for |
| WriterRuns.OrderedRunEqualsUpsert | internal/layer/write.go:97-177 | If recorded times do not decrease within a batch: iff no id ends with a delete that follows a non-deleted write in its last batch |
| WriterRuns.EveryThresholdEqualsUpsert | internal/layer/write.go:36-44 | On an ordered stream without late deletes the two agree for every threshold |
| WriterRuns.FailurePrefix | internal/layer/write.go:211-275 | For any failures and any calls after Close, the table is the effect of a prefix of whole batches, possibly with only the delete half of the next |
| WriterRuns.EndedFlush | internal/layer/write.go:211-275 | In an ended transaction a flush changes nothing, and fails iff something is pending |
| WriterRuns.EndedCall | internal/layer/write.go:97-177 | In an ended transaction no call changes the table, and a call reports success iff it is an accepted Write that stays below the threshold |
| WriterRuns.EndedForGood | internal/layer/write.go:97-177 | Once the transaction has ended, no sequence of calls changes the table |
| WriterRuns.FailedWriteIsSticky | internal/layer/write.go:151-155 | After a Write whose flush failed, for whatever reason, every later Write and Close fails and the table never changes |
| WriterRuns.HowItEnds | internal/layer/write.go:151-177 | A Write that fails to flush, for whatever reason, ends the transaction with its batch still at the threshold; Close always ends the transaction |
| WriterRuns.CleanWriteStaysIdle | internal/layer/write.go:151-160 | A successful Write of clean text leaves the transaction open with nothing pending |
| WriterRuns.SilentWriteAfterClose | internal/layer/write.go:151-160 | A write below the threshold, a Close whose first statement fails, and another write: both writes report success, Close an error, and whatever is called after, neither write is stored |
| WriterRuns.LiteralsAgree | internal/layer/write.go:179-227 | Every id has the same literal in DELETE and INSERT, namely itself, iff no time mapping applies to a column named id or to the id column |
| WriterRuns.ConvertedIdFails | internal/layer/write.go:216-261 | For every write of an id whose literals are not both the id itself: an existing row is never rewritten; the flush fails on a key that was not deleted or on a NULL key, or stores the row under another key |
| Timestamps.ConvertsRfc3339 | internal/layer/write.go:184-198 | RFC 3339 text becomes its own date and clock; the fraction is dropped, and the offset is kept for timestamps only, without its colon and as +0000 for zero |
| Timestamps.OnlyRfc3339 | internal/layer/write.go:184-198 | Nothing but RFC 3339 text is converted |
| Timestamps.ZoneForms | internal/layer/write.go:191-197 | Z and every offset of zero become +0000, any other offset loses its colon |
| Timestamps.StampRoundTrip | internal/layer/read.go:88-95 | For years 0 to 9999 the text of a timestamp reads back as the time cut to microseconds |
| Timestamps.RankInjective | internal/layer/read.go:88-95 | Two times are the same for the order used below iff they are equal when cut to microseconds |
| Timestamps.FormatOrder | internal/layer/read.go:88-95 | For years 0 to 9999 the text orders lexicographically exactly as the times cut to microseconds |
| Base64.RoundTrip | internal/layer/read.go:89-89 | Decoding (section 5 of RFC 4648) gives back what was encoded, and only the empty text has the empty code |
| Base64.SymbolIsInAlphabet | internal/layer/read.go:89-89 | Symbol v is character v of the URL alphabet in section 5 of RFC 4648 |
| Reader.MakeQuery | internal/layer/read.go:174-246 | The text built by appending to local strings is the text that the theorems below read |
| BaseQueries.BaseQueryExact | internal/layer/read.go:174-203 | A data query is used as it stands; otherwise the text parses to a query on the table, for exactly the mapped properties in their order, or for all columns when everything is mapped or an entity column is read; without either there is none |
| BaseQueries.BuildFailsIff | internal/layer/read.go:174-246 | Building fails for a missing mapping iff there is neither an outgoing mapping nor an entity column, for a bad token iff a window asks for it and it does not decode, and never otherwise; a data query is the beginning of the text |
| BaseQueries.ContainsIff | internal/layer/read.go:205-208 | The search for WHERE finds it wherever it is |
| BaseQueries.GivenColumns | internal/layer/read.go:183-203 | Without a data query a row is given whole, or with exactly the mapped properties |
| Reader.BuiltQuery | internal/layer/read.go:204-245 | For every base query without LIMIT: the built text is a query iff the guard of its branch holds and the limit is not negative, and then it is the base query with the window joined to its last conjunction, and the limit |
| Reader.BuiltUnwindowed | internal/layer/read.go:204-245 | Without a maximum, or without a since column and table, the built text is the base query with the limit, and no query iff the limit is negative |
| ReadMeaning.NarrowFilters | internal/layer/read.go:205-224 | The built condition selects the base rows in the window iff no row outside the window satisfies an earlier alternative of the base condition |
| ReadMeaning.ConjunctionNarrows | internal/layer/read.go:205-241 | With no WHERE, or a purely conjunctive one, the built condition selects exactly the base rows in the window |
| ReadMeaning.LeakedRow | internal/layer/read.go:206-224 | Every row that satisfies an earlier alternative of the base query is delivered by a read whose window it is not in |
| ReadMeaning.DisjunctionLeaks | internal/layer/read.go:206-224 | A base query text with OR for which a row outside the window is delivered by every read |
| ReadMeaning.BranchesAgree | internal/layer/read.go:205-240 | The since-table and since-column branches build the same query, for any limit, when both name the same table and the base has no WHERE |
| ReadMeaning.MaxStampIsMax | internal/layer/read.go:57-86 | The maximum is NULL iff there are no rows, and otherwise some row has it and no row is later |
| ReadMeaning.TokenRoundTrip | internal/layer/read.go:88-96 | The token of a read decodes in the next read to exactly the bound that read used, and reads back as that time |
| ReadMeaning.NullToken | internal/layer/read.go:88-96 | Without a maximum the token decodes to the zero time |
| ReadMeaning.WindowIsRange | internal/layer/read.go:211-240 | A row meets the conditions of the window iff its timestamp is after the mark and not after the maximum |
| ReadMeaning.ReadMeans | internal/layer/read.go:174-246 | For every base query without LIMIT on the table and every limit: a read succeeds iff the limit is not negative and the guard of its branch holds or the maximum is NULL; it delivers the first rows, up to the limit, of the base rows in the window if no row leaks through an earlier alternative, and without a limit only then |
| ReadMeaning.GivenIsProjected | internal/layer/read.go:174-246 | Whatever the limit and the window, a read gives the columns of the base query of the rows that it selects |
| ReadMeaning.ConjunctionsDoNotLeak | internal/layer/read.go:205-241 | With no WHERE, or a purely conjunctive one, no row leaks |
| ReadMeaning.WindowRowsExact | internal/layer/read.go:204-241 | The base rows in the window are those of the listing that satisfy the base query and lie after the mark and up to the maximum, each once |
| ReadMeaning.WholeTableRead | internal/layer/read.go:50-109 | A read of the whole table without a limit succeeds and delivers exactly the rows in its window, each once; all rows when the maximum is NULL |
| ReadMeaning.LimitLosesRows | internal/layer/read.go:88-89 | A limited read delivers all rows of its window iff they fit, and the next read, with its token and any limit, delivers none of the rows that were cut off |
| ReadMeaning.NewIterator | internal/layer/read.go:50-172 | Fails when the maximum query or the data query does; otherwise succeeds iff the text is a query, starts at the first row of what it gives, with the columns it asks for, for the maximum found before and the given limit, and carries the token of that maximum, or none without a since column |
| ReadMeaning.DbIterator.Next | internal/layer/read.go:267-346 | Consumes the pending rows one by one, each once and in order; gives the entity a row becomes, or an error when the row cannot be scanned or mapped, and after the last row the end or the error of the result set |
| Replica.CommitKeepsInv | internal/layer/write.go:211-275 | A commit whose new rows are stamped after every maximum read so far keeps the invariant of the protocol |
| Replica.AskMaxKeepsInv | internal/layer/read.go:57-86 | The first query of a read keeps the invariant, and its maximum covers every row of the table |
| Replica.AskDataKeepsInv | internal/layer/read.go:92-109 | The second query keeps the invariant, whatever was committed since the first |
| Replica.BlockIsCommit | internal/layer/write.go:211-275 | A writer's delete or insert block, as text, with any failures, is such a commit |
| Replica.RunKeepsInv | internal/layer/read.go:50-172 | Every interleaving of commits, writers' blocks and the two queries of reads keeps the invariant |
| Replica.ReadFollows | internal/layer/read.go:57-109 | From every state that the invariant allows, a read with no writer between its queries leaves the consumer with the current row of every id in the table |
| Replica.ReplicaFollows | internal/layer/read.go:57-109 | After any run, a read with no writer between its queries leaves the consumer with exactly the current row of every id in the table |
| Replica.ReplicaHoldsColumns | internal/layer/read.go:57-109 | Without a data query the consumer then holds of each row all columns, or exactly the mapped properties |
| Replica.OnlyDeliveredLingers | internal/layer/read.go:57-109 | Over any run the consumer holds exactly the ids ever delivered, each with the row of its last delivery |
| WriterReplica.FlushIsBlocks | internal/layer/write.go:211-275 | A flush, with any failures, is a legal run of the blocks it sends |
| WriterReplica.CallIsBlocks | internal/layer/write.go:97-177 | So is every Write and Close, in an open or an ended transaction, and it leaves a writer between calls |
| WriterReplica.CallsAreBlocks | internal/layer/write.go:97-177 | So is every sequence of calls with any failures |
| WriterReplica.StreamReachesConsumer | internal/layer/write.go:97-177 | After any earlier run, writes and a Close without failures and then one read leave the consumer with the row of every id that applying the batches of the stream asks for, apart from its stamp |
| Replica.SurvivorsDelivered | internal/layer/read.go:57-109 | Every row version that survives from a read's first query to its second was delivered by it or before, and the consumer holds it |
| Replica.NothingTwice | internal/layer/read.go:204-241 | Over any run no row version is delivered twice, unless it was delivered by a read whose maximum was NULL |
| Replica.EarlyRowsAreNew | internal/layer/read.go:92-96 | The maximum is NULL iff the table is empty, so what such a read delivers was committed between its two queries |
| Sorting.SortIsSorted | internal/legacy/layers/postlayer.go:116-118 | The stable sort gives an ascending permutation |
| Sorting.SortIsStable | internal/legacy/layers/postlayer.go:116-118 | Elements of the same order keep their places among each other |
| Sorting.SortOfSorted | internal/legacy/layers/postlayer.go:116-118 | Sorting what is sorted changes nothing |
| LegacyPost.StripProps | internal/legacy/layers/entity.go:22-30 | The stripped map holds for every name the value of the property that strips to it and is ranged over last |
| LegacyPost.StripExact | internal/legacy/layers/entity.go:22-30 | A stripped name is what follows the first colon, up to and including a second one |
| LegacyPost.ArgumentExact | internal/legacy/layers/entity.go:22-30 | The argument of a field is the value of the last property ranged over whose second part is the name of the field, and none iff there is no such property |
| LegacyPost.ArgumentIsStripped | internal/legacy/layers/entity.go:22-30 | There is such a value iff some property strips to the name, and if only one does, the order of the map does not show |
| LegacyPost.ArrangeIsSettled | internal/legacy/layers/postlayer.go:106-119 | Arranging the fields is idempotent, a permutation and stable; it leaves them alone if two of them have no order, and otherwise makes them ascending, so every chunk sees the same order |
| LegacyPost.ChunksCoverStream | internal/legacy/web/posthandler.go:44-84 | The chunks concatenate to the stream, none is empty and all but the last have 1000 elements |
| LegacyPost.ChunkIsThousand | internal/legacy/web/posthandler.go:44-84 | Chunk k is the k-th thousand of the stream, or what is left of it |
| LegacyPost.PostingIsOnePass | internal/legacy/layers/postlayer.go:121-155 | If every chunk succeeds the database is one sequential pass over the stream; if chunk k fails, one pass over exactly the chunks before it, each of which could be posted |
| LegacyPost.SeqLeadsTo | internal/legacy/layers/postlayer.go:127-152 | A pass over entities goes from state to state, one statement each: the configured query with all arguments of an entity that is not deleted, the DELETE with the first argument of a deleted one; it fails iff the statement of an entity fails in the state reached before it |
| LegacyPost.PostAllIsPosted | internal/legacy/web/posthandler.go:40-92 | Posting a stream leaves the state that the statements of its first k thousand entities lead to; it succeeds iff that is all of the stream, and otherwise the next thousand could not be posted or one of its statements fails |
| LegacyPost.PostLayer.SortFields | internal/legacy/layers/postlayer.go:116-118 | The array of fields becomes the stable sort of what it was |
| LegacyPost.PostLayer.ArrangeFields | internal/legacy/layers/postlayer.go:106-119 | The array of fields becomes its arrangement |
| LegacyPost.PostLayer.ApplyChunk | internal/legacy/layers/postlayer.go:127-152 | The statements of the entities in order, the query with all arguments or the DELETE with the first, each given by property name and value, lead from the old state to the new one, or to the failure of one of them |
| LegacyPost.PostLayer.PostEntities | internal/legacy/layers/postlayer.go:75-156 | One transaction: success iff there are a definition, a query, fields, a connection and a transaction, and the statements of the entities lead to a new state, which the database then has; otherwise the database stays; the shared fields are arranged in place once there is a definition and a connection |
| LegacyPost.PostLayer.BuildArgs | internal/legacy/layers/postlayer.go:130-134 | One argument for each field in the order of the fields, absent where the entity has no such property |
| LegacyPost.Posting.Emit | internal/legacy/web/posthandler.go:53-72 | What was emitted, without the first element, is always the posted full chunks followed by the entities at hand; an error means the chunk at hand was not posted |
| LegacyPost.Posting.ParseStream | internal/legacy/web/posthandler.go:94-106 | Emits the stream in order up to the first error |
| LegacyPost.PostHandler | internal/legacy/web/posthandler.go:40-92 | The database is left in the state that the statements of the first k thousand entities after the first element lead to, in the order of fields that the first chunk settles; the answer is success iff that is all of them, and otherwise the next thousand could not be posted or a statement of it fails; any dataset and any stream |
| Reconfiguration.ReconcileIsFresh | internal/layer/config.go:56-84 | Updating, removing and adding gives exactly the datasets of a layer built from the configuration alone; the last definition of a name wins |
| Reconfiguration.LastNamedIsLast | internal/layer/config.go:56-84 | The definition of a name is the last of the configuration with that name |
| Reconfiguration.HistoryIsForgotten | internal/layer/config.go:44-96 | After any number of reconfigurations only the last one shows |
| Reconfiguration.NewMysqlDataLayer | internal/layer/layer.go:60-77 | A new layer holds exactly the datasets of its configuration, on one open connection, or there is none when a connection step fails |
| Reconfiguration.SortedListingIsUnique | internal/layer/layer.go:49-58 | The sorted descriptions depend on the names only, not on the order of the map |
| Reconfiguration.MysqlDatalayer.UpdateConfiguration | internal/layer/config.go:44-96 | The datasets become those of the reconciliation; surviving names keep their object; all use the new open connection; a failure leaves the datasets; properties in use are lower-cased, others are not |
| Reconfiguration.MysqlDatalayer.UpdateExisting | internal/layer/config.go:56-66 | Exactly the names held before and now configured exist, each at its last definition and on the new connection; the others are untouched |
| Reconfiguration.MysqlDatalayer.RemoveMissing | internal/layer/config.go:68-73 | Exactly the existing names stay, with their objects |
| Reconfiguration.MysqlDatalayer.AddMissing | internal/layer/config.go:75-84 | Every configured name is there; existing ones keep their object, the others get a new one for their last definition |
| Reconfiguration.MysqlDatalayer.LowerProperties | internal/layer/config.go:86-93 | The properties of every dataset's outgoing mapping are lower-cased once, in place |
| Basics.LowerExact | internal/layer/config.go:86-93 | Lower-casing replaces each capital letter by its small letter and nothing else |
| Reconfiguration.MysqlDatalayer.DatasetDescriptions | internal/layer/layer.go:49-58 | Every dataset name exactly once, in ascending order |
| Reconfiguration.MysqlDatalayer.Lookup | internal/layer/layer.go:41-47 | A dataset is found iff its name is configured; it is the object that the layer holds and has the definition that the reconciliation gave the name |
| LegacyConfig.CacheIsTransparent | internal/legacy/conf/manager.go:81-125 | Over all runs of loads the held configuration is the last content that parsed iff contents that parse and share a digest stand for the same configuration, and the initial digest for the initial one |
| LegacyConfig.ParsedExact | internal/legacy/conf/manager.go:210-229 | A content stands for what it parses to; an empty user and an empty password are each replaced by their own setting |
| LegacyConfig.ColumnsByField | internal/legacy/conf/manager.go:198-208 | A field has a column iff some mapping names it, and the last mapping that does is the column |
| LegacyConfig.ConnectedSnoc | internal/legacy/layers/layer.go:249-260 | Whether the last attempt of a run to connect succeeded changes exactly when an ensure finds a changed digest |
| LegacyConfig.RunIsGuarded | internal/legacy/layers/layer.go:247-262 | Over any interleaving of loads and ensures, the handle was opened from a configuration with the repository's digest, and is open iff the last ensure that found a changed digest could connect |
| LegacyConfig.EnsureGuardsConnection | internal/legacy/layers/layer.go:247-262 | When success is reported and a configuration is loaded, the handle was opened from the held configuration; it is open iff this call found a changed digest or the last ensure before it that did could connect |
| LegacyConfig.ClosedHandleReported | internal/legacy/layers/layer.go:249-261 | A failed reconnect followed by a return to the previous content: success is reported on a closed handle |
| LegacyConfig.ConfigurationManager.Load | internal/legacy/conf/manager.go:108-124 | Replaces configuration and digest together, iff the digest is new and the content parses |
| LegacyConfig.ConfigurationManager.MapColumns | internal/legacy/conf/manager.go:198-208 | Rebuilds the column map of every table and nothing else |
| LegacyConfig.Layer.EnsureConnection | internal/legacy/layers/layer.go:247-262 | Success iff the digest has not changed or the connection could be made; an unchanged digest changes nothing, a changed one closes the handle and opens one from the held configuration; a failed attempt leaves the closed handle and the old digest |
| LegacyRows.BuildRowType | internal/legacy/layers/layer.go:219-241 | One cell for each column: of the integer, string, time, float and bit kind iff its type is in that family, and raw otherwise |
| LegacyRows.AssertionsHold | internal/legacy/layers/layer.go:340-397 | A cell of the allocated kind satisfies the type assertion of its column type |
| LegacyRows.Int64Exact | internal/legacy/layers/layer.go:437-445 | Text of a BIGINT is a number iff it is an optional sign, zeros and the decimal numeral of a number of 64 bits, and then it is that number |
| LegacyRows.ValueExact | internal/legacy/layers/layer.go:340-397 | A column gives exactly one value, by its cell and the family of its type: a string, integer, time, float, bit, UUID or Base64 text, and nil for NULL, for other types and for a BIGINT that is no number |
| LegacyRows.FeedExact | internal/legacy/layers/layer.go:341-384 | The text for ids and references is a non-empty string itself or the decimal numeral of an integer, and no other type has one |
| LegacyRows.NoPanicIff | internal/legacy/layers/layer.go:299-421 | A scanned row meets every type assertion iff its operation columns have an integer type |
| LegacyRows.LastForFound | internal/legacy/layers/layer.go:323-338 | The deciding column of a key is the last kept column stored under it, and there is one iff some kept column has the key |
| LegacyRows.IdIsLast | internal/legacy/layers/layer.go:399-403 | The id comes from the last kept id column with a text, and is empty without one |
| LegacyRows.ReferenceIsLast | internal/legacy/layers/layer.go:405-407 | The reference under a key comes from the last kept reference column of that key with a text, and is missing without one |
| LegacyRows.EntityHasKeptColumns | internal/legacy/layers/layer.go:299-421 | A returned entity is deleted iff an operation column says 1, and then has no properties and references; otherwise it has exactly the keys of kept columns, each with the value of its last column, and exactly the references of mapped columns with a text; keys, dropped columns, values and texts are stated on the mapping and the cells; without an entity the row has no id |
| LegacyRows.ToEntity | internal/legacy/layers/layer.go:299-421 | The loop returns the entity that the row describes in this sense, none iff its id is empty, and panics on a scanned row iff an operation column is not an integer |

## Left out

- MySQL and its driver: replaced by one table with a text primary key on the id column and a binary
  collation, blocks that are atomic, a clock and statements that may fail. A BEGIN commits what was pending,
  as in MySQL; reserved words as names and escapes in strings are outside its lexer.
- Quotes and backslashes in strings: the writer does not escape them; the theorems about text assume
  strings without them, names that are plain words, and distinct columns within a write.
- The mapper and the entity parser of the common data layer: an entity comes with its SetValue calls, or
  with none when mapping fails; what `Next` makes of a row, by the mapper or from the entity column, is a
  parameter that may fail.
- Values other than strings, nil, booleans and integers: the text of floating point numbers is not modelled.
- Unicode: case is folded for ASCII letters only.
- newMysqlWriter and begin: reading the settings, a failing Begin and a nil transaction are not modelled.
- RFC 3339 text: only the strict form; what else Go's time.Parse accepts is not modelled.
- appendMode, FullSync, latestOnly: stored or refused by the code, with no effect on what is modelled.
- Replica.ReplicaFollows: assumes that the since table is the data table, a base query without WHERE and
  LIMIT, limit 0, the key among the columns that are read, since the consumer identifies rows by it, and rows
  stamped later than every maximum read before their commit; joins are not modelled. Ids that were deleted
  stay at the consumer.
- Reader.BuiltQuery: base queries that already contain LIMIT, which the code would continue after, and
  conditions other than comparisons of a column with a literal are not modelled.
- A since column that is no datetime; the scan buffers and their reuse.
- Column names in results: rows are keyed by lower-cased names throughout, so the in-place lower-casing of
  the result's columns does not show.
- LegacyPost.PostHandler: closing the connection at the end is not modelled; whether a chunk has a connection is
  a parameter. The code ignores the error of a commit, so commits are taken to succeed.
- LegacyPost.StripProps: requires that every property name has a colon; the code panics otherwise.
- PostLayer.ensureConnection: the same logic as the layer's, which LegacyConfig.Layer.EnsureConnection models.
- UpdateConfiguration after a reconnect that failed: the code has no connection object then and panics; a
  connection is required.
- setUser and mapColumns: on values; that they change the parsed configuration in place does not show.
- The BIT column's value: the code stores a reference to the scan buffer; here the value is stored.
- HTTP handlers, authorization, logging, metrics, environment and scheduling: plumbing.
- CDC queries: their text runs functions whose meaning is not in the repository.
- The refresh job running concurrently with ensureConnection: each load and each ensure is one step.
