# Verification of the vectors engine

This project models the core of `vectors`, an embeddable SQL and vector engine, and proves what the engine promises
about it. `dafny verify dfyconfig.toml` checks everything.

The model follows the program's own form. Objects that change in place are classes (`WalFile`, `Database`,
`DenseVectorColumn`, `Table`, `BoundedHeap`, `CandidateSink`, `GpuCache`, the checksum streams); loops are methods with
invariants, each proved against a function or a predicate that says what it computes; evaluators, type checkers,
orders and codecs are functions. Most files belong to one part of the engine:

| part | files |
|---|---|
| values, names, bytes | `wrappers`, `bytes`, `utf8`, `values`, `float_values` |
| durability | `wal_codec`, `wal_buffers`, `wal_log`, `wal_file`, `durability`, `database`, `durable_tables`, `durable_sql`, `durable_files` |
| vector search | `dense`, `ranking`, `topk`, `nan_scores`, `rooted_scores`, `fast_path`, `vector_queries`, `topk_meanings` |
| SQL expressions | `sql_ast`, `sql_types`, `sql_eval`, `sql_soundness`, `sql_logic`, `like`, `sql_groups`, `sql_group_agreement`, `sql_aggregates`, `grouping`, `sql_constants`, `sql_meanings`, `sql_forms`, `sql_rejections` |
| queries | `sort_keys`, `candidates`, `query_results`, `selects`, `sort_meanings` |
| tables | `indexes`, `conflicts`, `upserts`, `patches`, `patch_indexes`, `table`, `inserts`, `sql_inserts`, `insert_meanings` |
| documents | `chunk_ranges`, `boundaries`, `headings`, `heading_meanings`, `chunking` |
| GPU executor | `gpu_column`, `gpu_executor`, `gpu_pipeline`, `gpu_scan` |
| embeddings | `embedding` |
| snapshots | `snapshot_codec`, `snapshot_streams`, `snapshot_writer`, `snapshot_loader`, `snapshot_catalog`, `catalog_demands` |

The specification functions are in turn tied to meanings that do not mention them: what is compared, which value goes
into which column, which lines are headings, which position a row has in an answer. These are the theorems of the
`*_meanings` files, `float_values`, `sql_forms` and `sql_rejections`, and the predicates in the contracts that they support.

Conventions of the model:

- Floating-point numbers are kept as IEEE 754 bit patterns (`f64`, `f32`); comparison, equality, NaN and finiteness are
  computed from the bits. Rounding operations, vector metrics, number parsing and Unicode case folding are fields of the
  parameter `Machine`: every theorem holds for all of them.
- Machine words are explicit: `u64` counters, the 64-bit bounds on sums of sizes, the wrapping revision counter.
- Strings are sequences of Unicode scalar values, with their UTF-8 encoding modelled where the program counts bytes.
- Files are byte sequences. A crash may stop an append or a header after any byte; writes reach the file in order; a
  snapshot replaces the previous one at once.
- Errors are the error classes of the program; message texts are not modelled.

## Where the code does less than it promises

Each of these is a theorem with a concrete input, an exact condition, or both; where only one half of a condition is
proved, the entry says so.

- The log reader limits the rows, columns and update columns of a record, the writer does not: an acknowledged insert over
  a limit cannot be read back (`WalCodec.DecodeEncodedRecord`, `WalCodec.OversizedBatchIsLostOnReopen`,
  `Durability.OverCapCommitIsUnreadable`).
- A log whose last sequence number is the last machine word cannot be recovered: `Durability.CrashSafety` needs one more.
- The snapshot writer takes catalogs that the reader refuses. A database whose last checkpoint saved one never opens again
  (`Durability.UnloadableCheckpointIsFatal`); the reader's demands on a catalog are exactly
  `CatalogDemands.CatalogLoadable`, and `CREATE TABLE "" (...)` followed by a checkpoint is the input
  (`DurableFiles.NamelessTableIsFatal`). A stored number that is not finite makes saving fail
  (`SnapshotWriter.WriteCatalog`).
- `LIKE ... ESCAPE` passes the type checker and fails on every row (`SqlLogic.EscapeIsRefusedLate`); an `ARRAY` outside
  GROUP BY passes the check of grouped queries and fails on every group
  (`SqlGroupAgreement.LooseArrayIsRefusedLate`).
- `ON CONFLICT DO NOTHING` can violate uniqueness after all (`Inserts.InsertNaNTwice`). With one unique column it does
  exactly when the incoming rows repeat a NaN whose key is not in the map yet (`Inserts.DoNothingInsertFails`); with
  several it does only if one of them does so (`Conflicts.DoNothingIsSafe`).
- With NaN scores a parallel scan may return other rows than the sequential one, for every tile size
  (`NaNScores.NaNDependsOnTiling`). The order ranks the scored rows exactly when no NaN lies between two numbers that rank
  against their rows (`NaNScores.OrderlyExactly`), and then all scans agree (`TopK.ParallelTopK`). That is enough and not
  always needed; with room for one row all scans agree exactly when some row ranks before every other
  (`NaNScores.OneWinner`).
- One FLOAT sort key ranks rows exactly when they do not hold a NaN and two numbers that differ
  (`SortKeys.FloatOrderExactly`, with an input in `SortKeys.NaNKeysHaveNoOrder`). For several keys only one half is
  proved: without NaN the order is a weak order (`SortKeys.OrderByIsWeak`).
- A query vector that cannot be computed makes a vector query fail before any row is looked at, on an empty table too,
  and of several rows that fail a parallel scan with WHERE may report any (`VectorQueries.RunQuery`).
- Two names of a column list that differ only in quoting find the same column, and the last of their values is stored
  (`SqlInserts.PreparedRowsMean`).
- Under a row cap close to the largest machine word, a query with OFFSET and without LIMIT fails although its result
  is short (`Selects.RunCapped`).

## Model

| member | source | states |
|---|---|---|
| WalCodec.DecodeEncodedRecord | src/durable.rs:339-588 | decoding the body of any operation the writer accepts returns its sequence number and the operation unchanged if and only if the reader's row and column limits hold; otherwise the record is corrupt |
| WalCodec.OversizedBatchIsLostOnReopen | src/durable.rs:499-566 | one batch of a million and one rows of a single NULL that the writer accepts and the reader refuses |
| WalBuffers.PrepareSql | src/durable.rs:105-111 | preparing a statement yields its encoding, or fails exactly when the record would be too large |
| WalBuffers.PrepareInsertRows | src/durable.rs:113-131 | preparing rows yields their encoding, or fails exactly when a number is not finite or the record would be too large |
| WalBuffers.RunDecoder | src/durable.rs:339-370 | the decoder object, with its moving offset, returns what the parser of a whole record body specifies, and rejects trailing bytes |
| WalLog.ReadFrame | src/durable.rs:192-297 | a frame is whole only with its length, body and checksum present; the parts add up to what was read |
| WalLog.ScanFrames | src/durable.rs:192-297 | scanning consecutive frames and a torn tail returns exactly those records in order and the length up to the tail, or fails when a record exceeds a reader limit |
| WalLog.OpenWrittenLog | src/durable.rs:192-297 | opening a log the writer produced, however its last append ended, returns exactly the whole records and cuts the tail; it fails exactly when some record exceeds a reader limit |
| WalLog.PrefixSafety | src/durable.rs:192-297 | cut header and records at any byte: opening returns exactly the records wholly before the cut, truncates to their end, and opening again returns the same |
| WalFile.ScanRecords | src/durable.rs:220-297 | the record loop returns what the scan of the file's frames specifies |
| WalFile.WalFile.Append | src/durable.rs:133-165 | an append writes the frame and reports success, or leaves a prefix of it and disables the file; a disabled file and an oversized record are refused and change nothing |
| WalFile.WalFile.ResetAfterCheckpoint | src/durable.rs:167-185 | a reset ends with a bare header, or with whatever it got to and a disabled file |
| WalFile.OpenWal | src/durable.rs:192-297 | opening a file yields the records and the repaired file that the specification of opening gives |
| Durability.RecoverRebuilds | src/engine.rs:979-1026 | replaying the log on a snapshot of any prefix of the operations rebuilds the catalog of all of them, skipping what the snapshot holds; it fails exactly when sequence numbers are exhausted |
| Durability.RunKeepsInv | src/engine.rs:817-918 | every run of commits, failed appends, checkpoints, resets, crashes and reopenings, at byte granularity, keeps the invariant that ties log, snapshot and visible catalog together |
| Durability.CrashSafety | src/durable.rs:133-185 | stop any run at any byte: the files hold the visible operations in order and at most the one whose append was interrupted or failed, and reopening shows exactly these, if and only if the reader takes the snapshot, the logged records respect its limits and a sequence number is left |
| Durability.HistoryStep | src/engine.rs:895-909 | no step reorders, shortens or rewrites what became visible; only the operation whose append was under way is ever added, by publication or on reopening |
| Durability.HistoryGrows | src/engine.rs:817-918 | over any run what was visible before is a prefix of what is visible after |
| Durability.RevisionNamesOneCatalog | src/engine.rs:652-663 | in one run, crashes included, the revision equals the durable sequence and the number of visible operations, never decreases, and equal revisions mean equal catalogs |
| Durability.ConditionalEdit | src/engine.rs:809-868 | an edit conditional on a revision is accepted only if nothing became visible since that revision was read |
| Durability.CommitRun | src/engine.rs:871-909 | an undisturbed commit appends one frame and shows the new catalog under the next sequence number |
| Durability.OverCapCommitIsUnreadable | src/durable.rs:113-131 | committing an operation over a reader limit is acknowledged, and after a crash the database does not open |
| Durability.StaysDown | src/durable.rs:64-103 | with a snapshot that the reader refuses, no steps bring a stopped database up or change its files |
| Durability.UnloadableCheckpointIsFatal | src/engine.rs:721-751 | a checkpoint of a catalog that the writer takes and the reader refuses succeeds, and after the next stop the database stays down whatever is tried |
| Database.RunRecovery | src/engine.rs:979-1026 | the replay loop computes the specified recovery, with the same failures |
| Database.Database.Execute | src/engine.rs:817-918 | success is reported if and only if the expected revision, if any, is current, the statement succeeds, and it either marks nothing as changed or its whole record was appended under a free sequence number; then history, sequence, revision and log grow by exactly that operation; on failure catalog, revision and sequence are unchanged; whatever the append reports, the object ends in the state the step machine reaches |
| Database.ExecuteRun | src/engine.rs:871-909 | an execution ends like the steps of the state machine that its append takes, and publishes exactly if the frame was written whole |
| Database.Database.Checkpoint | src/engine.rs:721-751 | success is reported exactly when an enabled log was saved and rewritten without a fault, and the log is then a bare header; saving and resetting end in the state the step machine reaches, whatever fails on the way; the snapshot is replaced exactly when the save got that far; a disabled log refuses |
| Database.OpenDatabase | src/engine.rs:640-664 | opening the files of a stopped database returns the database the step machine reopens; where the machine stays down it fails with a corrupt snapshot if the reader refuses that, and otherwise with a corrupt log |
| DurableTables.TablesAreHonest | src/engine.rs:1202-1223 | with real tables in the catalog, an operation that marks nothing as changed changes nothing: the assumption of the crash theorems holds for inserts |
| DurableTables.RecordCommits | src/engine.rs:1166-1192 | the record a live insert logs, executed by recovery, commits exactly the catalog the insert made from the caller's original rows |
| DurableTables.LiveTableInsert | src/engine.rs:1150-1200 | an insert into a stored table, with its incrementally kept key maps, is the catalog's insert |
| DurableTables.AcknowledgedInsertSurvives | src/engine.rs:1166-1192 | an insert that affected a row and was acknowledged is there, with exactly its rows, after stopping the process and reopening, if the last snapshot meets the reader's demands and the records respect its limits |
| DurableSql.SqlLiveEqualsReplay | src/engine.rs:979-1026 | the text that a live INSERT statement logs is read back, and executed by recovery it commits exactly the catalog that the live statement made |
| DurableSql.AcknowledgedStatementSurvives | src/engine.rs:920-977 | an acknowledged INSERT statement that affected a row is there, with exactly its rows, after stopping the process and reopening, under the same conditions |
| DurableFiles.OpenFiles | src/durable.rs:64-103 | opening the bytes of the snapshot file, if there is one, and of the log returns the database the step machine reopens, or the error of the file that keeps it down |
| DurableFiles.CheckpointFiles | src/durable.rs:167-185 | a checkpoint leaves a snapshot file of the catalog last saved, however the writing goes; saving succeeds exactly for what the format can hold; reported success means that the file is the catalog of now and the log works |
| DurableFiles.FilesAreCrashSafe | src/durable.rs:64-185 | stop any run on the two files at any byte: opening them shows the visible operations and at most the interrupted one, if and only if the catalog last saved meets the reader's demands, the records respect its limits and a sequence number is left |
| DurableFiles.NamelessTableIsFatal | src/engine.rs:1361-1449 | creating a table without a name is acknowledged, so is the checkpoint after it, and from the next stop on the database does not open |
| Dense.CoverIsUnique | src/engine.rs:478-494 | two chunks of a tiled column never cover the same row |
| Dense.DenseVectorColumn.PushChunk | src/engine.rs:466-476 | appending a slab appends its contents and keeps the block table right |
| Dense.DenseVectorColumn.ChunkIndex | src/engine.rs:478-494 | the two-level search finds the one chunk that covers a row, and none past the end |
| Dense.DenseVectorColumn.Get | src/engine.rs:357-366 | a row's stored vector with its cached norm, or none for NULL and past the end |
| Dense.DenseVectorColumn.AppendRows | src/engine.rs:404-464 | appending rows, in recursively split slabs, extends the contents by exactly their vectors and leaves the rows' values as they were |
| Dense.FromRows | src/engine.rs:398-402 | packing all rows at once gives the contents that any series of appends of them gives |
| Ranking.MergeBest | src/engine.rs:4463-4468 | the best of one part merged with the best of another are the best of both |
| Ranking.BoundedHeap.Push | src/engine.rs:4345-4359 | a bounded heap keeps the best of everything pushed |
| Ranking.SortSorts | src/engine.rs:4613-4620 | for every weak order sorting sorts |
| Ranking.SortedRanks | src/engine.rs:4613-4620 | two sorted arrangements of the same elements rank the same at every position |
| Ranking.BestIsPrefix | src/engine.rs:4612-4620 | the sorted best k rank, position by position, like the first k of everything sorted |
| TopK.OrderIsWeak | src/engine.rs:3696-3722 | the candidate order, with null placement, is a weak order without NaN, and only candidates of the same row rank the same |
| TopK.ScanTile | src/engine.rs:4429-4469 | a tile's rows are scored once each, across chunk borders, or the tile fails like one of them |
| TopK.ScoreFiltered | src/engine.rs:3805-3855 | a row is scored if the filter admits it; it fails like its filter or its score |
| TopK.TilesPermute | src/engine.rs:4429-4469 | the order in which tiles are scanned does not matter |
| TopK.TilesCover | src/engine.rs:4446-4451 | the tiles of any size cover every row exactly once |
| TopK.ParallelTopK | src/engine.rs:4374-4469 | for every tile size, distribution of tiles over workers and merge order, with a filter or without: the scan fails exactly when some row does, like such a row; otherwise, if the order ranks the scored rows, it returns the offset/limit slice of all of them sorted by score and row; with room for one row it returns the one that the tree of merges tells, whatever the order |
| TopK.SequentialTopK | src/engine.rs:4417-4427 | the scan by one thread, chunk by chunk or row by row, returns the same slice |
| TopKMeanings.ScanMeans | src/engine.rs:4374-4469 | without NaN, position i of the answer holds a scored row with exactly offset + i scored rows ahead of it, by the number its score stands for, the direction, the place of NULLs, and then the row |
| NaNScores.OrderlyExactly | src/engine.rs:3696-3722 | the order ranks the scored rows if and only if no NaN's row lies between the rows of two numbers that rank the other way around |
| NaNScores.OneWinner | src/engine.rs:4345-4359 | with room for one row, every tiling and merge order agrees with the scan in row order if and only if some row ranks before every other |
| NaNScores.NaNDependsOnTiling | src/engine.rs:4429-4469 | for every tile size a column on which the sequential scan returns one row and the parallel scan another |
| RootedScores.SquaredRankingKeepsScores | src/engine.rs:3650-3662 | ranking by the squared distance and then taking a root that is monotone on the scores gives, position by position, the scores that ranking by the distance gives |
| FastPath.FastPathAnswers | src/engine.rs:4612-4620 | the page of the rows sorted by score is a right answer for the rows sorted by the root of the score, under the same direction and placement of NULLs |
| SqlConstants.ConstantsKeepTheirValue | src/engine.rs:4301-4315 | an expression that evaluates without any row evaluates to the same value in every row |
| VectorQueries.DistanceMeans | src/engine.rs:4242-4315 | an expression the fast path recognizes, from either side of the operator, evaluates in every row to the distance of that row's vector from the query vector |
| VectorQueries.RowAgrees | src/engine.rs:3805-3869 | the fast path's filter, score and late projection of a row give what the general executor gives for it, the sort key being the root of the score, failures included |
| VectorQueries.MatchesAgree | src/engine.rs:3805-3869 | the candidates of all rows are the general executor's matches, or both fail with some row |
| VectorQueries.RunFast | src/engine.rs:4472-4627 | the fast path, sequential or with any tiles and merges, returns a right answer of the general executor to the same query, the L2 distance being ranked by its square; it fails like some failing row, and without WHERE exactly like the general executor |
| VectorQueries.RunQuery | src/engine.rs:2658-2716 | whichever executor takes the query over, a query that passes its checks is answered right, and in the order of its sort keys |
| LikePattern.LikeSplit | src/engine.rs:5365-5385 | a concatenated pattern matches exactly the values that split into a match of each part |
| LikePattern.PatternsMean | src/engine.rs:5365-5385 | `%` alone matches everything, `_` one character, another character itself, and the empty pattern the empty value |
| LikePattern.NextRow | src/engine.rs:5371-5383 | one pass of the inner loop turns the row of a pattern prefix into that of the next |
| LikePattern.LikeMatches | src/engine.rs:5365-5385 | the two-row table is true exactly when the recursive meaning of `%`, `_` and literals holds |
| SqlSoundness.TypeSoundness | src/engine.rs:3881-4109 | what an accepted expression evaluates to is NULL or of its type, always NULL for no type; it fails only with domain errors, unless it holds an aggregate (unsupported), an ESCAPE clause (unsupported) or a cast (type or dimension errors) |
| SqlRejections.RejectedFails | src/engine.rs:3881-4109 | the checker rejects nothing that works: a form it rejects although its parts are accepted fails on every row in which the parts are not NULL, unless AND or OR skips its right side |
| SqlLogic.PlainFailsOnlyOnData | src/engine.rs:4951-5072 | without aggregates, ESCAPE and casts only overflow, division by zero, zero norm, null element and number-range errors are left |
| SqlLogic.KleeneLogic | src/engine.rs:5339-5363 | AND is the minimum, OR the maximum and NOT the reversal of false, unknown, true |
| SqlLogic.ShortCircuit | src/engine.rs:5074-5101 | skipping the right side never changes a value, it only hides failures of the right side |
| SqlLogic.DeMorgan | src/engine.rs:5074-5101 | NOT of AND is OR of NOTs, failures included |
| SqlLogic.BetweenIsConjunction | src/engine.rs:4999-5009 | a value of BETWEEN is the value of the conjunction of its comparisons |
| SqlLogic.InListMeans | src/engine.rs:5010-5033 | IN is true with an equal item, unknown with none but a NULL involved, otherwise false, and has a value exactly when every comparison has |
| SqlLogic.EscapeIsRefusedLate | src/engine.rs:5034-5071 | LIKE with ESCAPE is accepted with type BOOLEAN and evaluates to an error on every row |
| SqlMeanings.IntegersMean | src/engine.rs:5257-5275 | integer arithmetic gives the exact sum, difference, product, quotient toward zero or remainder with the dividend's sign; it fails exactly on a zero divisor or when the result, for a remainder the quotient, does not fit 64 bits |
| SqlMeanings.ArithmeticMeans | src/engine.rs:5257-5295 | an operator evaluates both sides; NULL gives NULL, two integers exact arithmetic, a float on either side the machine's operation on both as floats, failing exactly on a zero divisor or a result that is not finite |
| SqlMeanings.ComparisonsMean | src/engine.rs:5297-5337 | comparison operators compare by value, NULL makes them unknown, vectors can only be tested for equality, and NaN and values of different categories fail |
| SqlMeanings.NegationMeans | src/engine.rs:5136-5163 | a minus sign gives the negated number, and fails exactly on the smallest integer |
| SqlMeanings.VectorOperatorsMean | src/engine.rs:5123-5134 | on two vectors `<->` is the Euclidean distance, `<=>` the cosine distance and `<#>` the negated dot product; different dimensions fail, and a zero norm for the cosine |
| SqlMeanings.DistanceFunctionsMean | src/engine.rs:5223-5245 | the distance functions, by each of their names, compute what the operator of their distance computes |
| SqlForms.LiteralsMean | src/engine.rs:5387-5406 | a literal is the value it spells; a number with a point or an exponent is a finite float, any other an integer |
| SqlForms.TestsMean | src/engine.rs:4977-4998 | IS NULL and the four IS tests say whether the value is NULL, true or false, and are never unknown; the tests refuse what is neither a truth value nor NULL |
| SqlForms.LogicMeans | src/engine.rs:5074-5101 | on expressions, AND takes the lesser of false, unknown and true, OR the greater, and NOT turns their order around |
| SqlForms.NegatedForms | src/engine.rs:4999-5071 | NOT BETWEEN, NOT IN and NOT LIKE evaluate like NOT of the plain form, failures included |
| SqlForms.InMeans | src/engine.rs:5010-5033 | IN is membership among the outcomes of the listed expressions |
| SqlForms.LikeMeans | src/engine.rs:5034-5071 | LIKE matches the text against the pattern, and ILIKE the one in lower case against the other in lower case |
| SqlForms.NamesMean | src/engine.rs:4921-4924 | a name evaluates to the row's value of the column it finds, or fails like the search |
| SqlForms.JoinedNames | src/engine.rs:4889-4919 | in a join the columns of the right table follow those of the left, and are NULL where the right row is missing |
| SqlForms.CastsMean | src/engine.rs:5067-5072 | a cast gives what a column of the named type would store, and fails exactly if it would store nothing |
| SqlForms.ArraysMean | src/engine.rs:4957-4976 | an ARRAY that has a value is the vector of its elements in order, as numbers of single precision |
| SqlForms.VectorFunctionsMean | src/engine.rs:5164-5222 | VECTOR, the dimensions, the norm and normalization, by each of their names: the vector of the arguments, its length, its norm, and each element scaled by the norm, which must not be zero |
| SqlForms.AggregateNames | src/engine.rs:3055-3109 | an aggregate call is understood by its name, with its one argument or `*`, which only a plain COUNT takes |
| SqlGroupAgreement.GroupAgrees | src/engine.rs:3285-3466 | a value the group evaluator gives an aggregate-free expression is the row evaluator's value on the opening row; for admitted expressions without a loose ARRAY also conversely |
| SqlGroupAgreement.LooseArrayIsRefusedLate | src/engine.rs:3219-3283 | an ARRAY outside GROUP BY passes the check when its elements do, and is refused on every group |
| SqlAggregates.SumIsExact | src/engine.rs:3149-3182 | SUM of integers is exact when every running total fits 64 bits and fails with overflow otherwise |
| SqlMeanings.SumWithFloats | src/engine.rs:3149-3182 | SUM with a float among the numbers adds the integers before it exactly, rounds once, and adds the rest as floats in order; only a total that is not finite fails |
| SqlAggregates.DistinctCounts | src/engine.rs:3111-3147 | DISTINCT keeps as many values as there are distinct keys |
| SqlMeanings.DistinctKeeps | src/engine.rs:3111-3147 | DISTINCT keeps every key that was not seen before |
| SqlMeanings.CountMeans | src/engine.rs:3111-3147 | COUNT counts the rows, or those in which its argument is not NULL, or with DISTINCT the keys of these values |
| SqlMeanings.AverageMeans | src/engine.rs:3184-3199 | AVG is the sum of the numbers, added as floats in order, divided by their count |
| SqlAggregates.BeatsIsTransitive | src/engine.rs:3201-3217 | the comparison of MIN and MAX is transitive on values of one type |
| SqlAggregates.ExtremeIsBest | src/engine.rs:3201-3217 | MIN and MAX return one of the values that no other value beats |
| SqlMeanings.ExtremesMean | src/engine.rs:3201-3217 | without NaN, MIN is one of the values with none below it and MAX one with none above it, by number, text or truth value |
| SqlAggregates.GroupTyped | src/engine.rs:3881-4109 | the declared type of an expression over groups, aggregates included, is the type of its values |
| Grouping.GroupRows | src/engine.rs:2881-2911 | grouping fails exactly when WHERE or a key fails on some row; otherwise the groups partition the passing rows in scan order, by key |
| Grouping.JoinedOnce | src/engine.rs:2881-2911 | no row is in two groups |
| Grouping.SameGroup | src/engine.rs:2881-2911 | two passing rows share a group exactly when their keys are equal |
| Grouping.GroupsAgreeWithTheirFirstRow | src/engine.rs:2881-2911 | every group was opened by its first row, so the two evaluators agree there |
| SortKeys.OrderByIsWeak | src/engine.rs:4792-4847 | ORDER BY, with null placement and direction per term, is a weak order on keys of one type per term without NaN |
| SortKeys.SameRankMeansEqualKeys | src/engine.rs:4792-4847 | rows that rank the same have SQL-equal sort keys |
| SortKeys.ReversedOrder | src/engine.rs:4792-4825 | reversing every term's direction and NULL placement reverses the order |
| SortKeys.NullPlacement | src/engine.rs:4792-4825 | unless the query says otherwise NULL sorts behind everything ascending and before everything descending |
| SortKeys.NaNKeysHaveNoOrder | src/engine.rs:4827-4847 | 2 and 1 both compare equal to NaN and yet differ |
| SortKeys.FloatOrderExactly | src/engine.rs:4827-4847 | one FLOAT key is a weak order on rows if and only if they do not hold a NaN together with two numbers that differ |
| FloatValues.KeysOrderNumbers | src/engine.rs:4827-4847 | the order of the bit patterns is the order of the numbers they stand for by IEEE 754, and both zeros are one number |
| SortMeanings.CompareMeans | src/engine.rs:4827-4847 | sort keys compare by value: integers and floats as numbers, texts by the first character that differs and then by length, false before true |
| SortMeanings.KeysMean | src/engine.rs:4792-4825 | several terms decide by the first in which the rows are not tied, each in its own direction and with its own place for NULL |
| SortMeanings.AnswersAreInOrder | src/engine.rs:2719-2775 | in a right answer no row stands behind one whose sort key belongs before its own |
| Candidates.DedupMeaning | src/engine.rs:4689-4699 | DISTINCT keeps exactly one candidate for each combination of values |
| Candidates.PageMeans | src/engine.rs:2719-2775 | a page starts behind the first OFFSET elements, goes on in order, and holds LIMIT elements or all that are left |
| Candidates.CandidateSink.Push | src/engine.rs:4689-4731 | after any pushes the sink holds the best of the distinct candidates, or the first ones |
| QueryResults.ValidateOrderValues | src/engine.rs:3526-3555 | sort keys pass exactly when each term's keys, NULLs aside, are of one category and never vectors |
| QueryResults.TypedKeysAreOneCategory | src/engine.rs:2585-2601 | the keys of a type-checked query always pass |
| QueryResults.ChosenFromBest | src/engine.rs:2719-2775 | a page chosen from the best candidates is a page of all of them |
| QueryResults.ChosenHaveTheKeys | src/engine.rs:2719-2775 | position by position the chosen rows have the sort keys of the page of everything sorted |
| QueryResults.FinishCandidates | src/engine.rs:2719-2775 | distinct, partition, sort, skip and take answer like the page of all candidates; only an overflowing OFFSET plus LIMIT fails |
| Selects.CheckedKeysAreTyped | src/engine.rs:2585-2601 | each ORDER BY term of a checked query sorts values of the one type it was checked with, aliases included |
| Selects.Scan | src/engine.rs:2683-2704 | the row loop fails with the first failing row, or pushes the matches of all rows, or of enough rows |
| Selects.MatchesMean | src/engine.rs:2683-2704 | the matches are the rows for which WHERE is true, each once and in scan order, with the values of the selected expressions and sort keys |
| Selects.Run | src/engine.rs:2683-2716 | the streaming executor returns exactly the page of the distinct matches: in scan order without ORDER BY; with it no returned row is behind one whose sort key is smaller, by value and direction, term after term |
| Selects.PushdownKeepsAnswers | src/engine.rs:2611-2615 | with the limit lowered to one more than the cap, the result is over the cap exactly when the uncapped result is, and otherwise is one of its answers |
| Selects.RunCapped | src/engine.rs:2777-2787 | a capped query fails exactly when the uncapped result is longer than the cap, or when without LIMIT the sum of OFFSET and cap overflows a machine word; with a row that fails it fails like that row, or, without ORDER BY, caps what it had before; what it returns is in order |
| Indexes.IndexDetermined | src/engine.rs:6033-6049 | the cells determine a hash index, buckets ascending |
| Indexes.ExtendBuckets | src/engine.rs:6038-6049 | adding new rows to the buckets gives the index of all rows |
| Indexes.Unpost | src/engine/upsert.rs:120-215 | taking a row out of its bucket leaves the index of the other rows |
| Indexes.Post | src/engine/upsert.rs:120-215 | putting a row into a bucket keeps it ascending |
| Indexes.UniqueMapDetermined | src/engine.rs:6093-6113 | a unique-key map exists only without repeated keys, and the cells determine it |
| Conflicts.ScanKeys | src/engine.rs:5499-5531 | the scan of new keys finds a repetition exactly when there is one |
| Conflicts.ValidateUnique | src/engine.rs:5499-5531 | the branch that looks keys up in a map and the branch that scans the rows decide the same: the first unique column with a repeated key |
| Conflicts.AcceptedDoNotClash | src/engine.rs:5587-5597 | accepted rows clash neither with stored nor with earlier accepted rows |
| Conflicts.DoNothingKeepsUnique | src/engine.rs:5587-5597 | DO NOTHING without target keeps a unique column free of repeated keys exactly when the rows it accepts repeat no NaN |
| Conflicts.DoNothingIsSafe | src/engine.rs:5587-5597 | it never leaves a repeated key if the incoming rows repeat no NaN that is not in the key map yet, and so never for rows without NaN |
| Conflicts.DoNothingFailsExactly | src/engine.rs:5587-5597 | with one unique column it leaves a repeated key if and only if the incoming rows repeat such a NaN |
| Conflicts.DoNothingIsIdempotent | src/engine.rs:5587-5597 | after DO NOTHING, replaying any prefix of the same rows, each with a value to clash on, accepts nothing |
| Upserts.MergeMeaning | src/engine.rs:5935-5970 | an incoming row is appended exactly if it conflicts with no row it meets, those written and appended before included, and otherwise hits the first it conflicts with; a merge writes each stored row at most once, keeps the others, appends in order and counts exactly what it wrote |
| Upserts.UpsertMeaning | src/engine.rs:5935-5982 | a successful conflict update does what a merge does and leaves no two rows with the same non-null unique value |
| Patches.SearchAgrees | src/engine/upsert.rs:11-91 | finding conflicts by key maps finds what scanning a private copy finds |
| Patches.StagedDecides | src/engine/upsert.rs:11-91 | looking only at the written cells decides uniqueness of the whole outcome |
| Patches.Prepare | src/engine/upsert.rs:11-91 | the bounded typed upsert, finding conflicts by key map or, without one, by scanning, prepares the rows, count and errors that merging into a full copy gives |
| PatchIndexes.PatchBuckets | src/engine/upsert.rs:120-215 | moving only changed rows between buckets gives the index of the new rows |
| PatchIndexes.PatchKeys | src/engine/upsert.rs:120-215 | removing old keys and then adding new ones gives the key map of the new rows, swaps included |
| StoredTable.Table.Append | src/engine.rs:5561-5573 | appending validated rows keeps every index and key map what a rebuild would give |
| StoredTable.Table.RebuildIndexes | src/engine.rs:6088-6113 | a rebuild makes every index and key map agree with the rows |
| StoredTable.Table.ApplyPatch | src/engine/upsert.rs:120-215 | applying a prepared upsert gives the specified rows and keeps every index and key map what a rebuild would give |
| Inserts.PrepareTwice | src/engine.rs:5469-5488 | coercing and validating stored rows again changes nothing |
| Inserts.MergeRows | src/engine.rs:5935-5970 | the loop of a conflict update computes the merge |
| Inserts.ApplyConflictUpdates | src/engine.rs:5935-5982 | a conflict update leaves the table unchanged and fails, or installs the merged, checked rows with rebuilt indexes |
| Inserts.ApplyInsertPlan | src/engine.rs:5743-5801 | the plan applied directly gives the specified rows, count and errors for every conflict policy |
| Inserts.PrepareDurableInsert | src/engine.rs:5576-5614 | preparing reads the table only, and fails or yields a change with exactly the specified outcome |
| Inserts.Apply | src/engine.rs:5561-5573 | applying a prepared change gives the rows it was prepared for and keeps all indexes |
| Inserts.ZeroMeansUnchanged | src/engine.rs:1176-1195 | an insert that affects no row leaves the rows alone |
| Inserts.InsertInMemory | src/engine.rs:1202-1223 | the in-memory and recovery path has the specified effect, or fails and changes nothing |
| Inserts.DurableInsert | src/engine.rs:1150-1200 | the durable path succeeds exactly when the insert is valid, its record loggable and the append succeeds; then it has the same effect and logs the stored rows exactly when a row was affected; otherwise nothing changes |
| Inserts.LiveEqualsReplay | src/engine.rs:1166-1192 | decoding and replaying what was logged has the same effect on the same table and the same count as the live insert |
| Inserts.DoNothingInsertFails | src/engine.rs:5576-5614 | for a table with one unique column a DO NOTHING insert of rows that pass their checks fails with a unique violation if and only if they repeat a NaN whose key is not in the map yet |
| Inserts.DoNothingInsertIsSafe | src/engine.rs:5576-5614 | without NaN in unique columns a DO NOTHING insert never fails with a unique violation |
| Inserts.InsertNaNTwice | src/engine.rs:1202-1223 | inserting two rows of one NaN into an empty table with DO NOTHING fails with a unique violation |
| SqlInserts.PrepareSqlInsert | src/engine.rs:5616-5662 | preparing an INSERT statement reads the table only, and fails or yields a change with exactly the effect the statement specifies; without a conflict clause the rows it appends hold, in the column that each name finds, the value of the expression at that place, an integer rounded to a float in a FLOAT column, and NULL elsewhere |
| SqlInserts.InsertSql | src/engine.rs:1451-1481 | the direct path appends exactly those rows, has the specified effect for every conflict clause, or fails and changes nothing |
| SqlInserts.DurableSqlInsert | src/engine.rs:920-977 | the durable path succeeds exactly when the statement does and, if it affects a row, its text is loggable and the append succeeds; then it appends exactly those rows, has the same effect for every conflict clause, and logs the text exactly when a row was affected |
| SqlInserts.PreparedRowsMean | src/engine.rs:5628-5661 | each row to insert holds in column c the value of the last expression whose name finds c, or the c-th without names, as the column stores it, and NULL where there is none |
| SqlInserts.PlainInsertMeans | src/engine.rs:5616-5662 | an accepted INSERT without a conflict clause appends these rows behind the ones stored, and counts them |
| InsertMeanings.PrepareRowMeans | src/engine.rs:5664-5682 | a typed row is accepted if and only if it has a value for each column that the column can store and NULL only where allowed; it is stored value by value, integers in FLOAT columns rounded |
| InsertMeanings.PlainTypedInsertMeans | src/engine.rs:5743-5801 | an accepted typed insert without a conflict policy appends the stored form of its rows, in order, and counts them |
| InsertMeanings.AssignedRowMeans | src/engine.rs:5862-5970 | a conflict update writes exactly where its WHERE is true; then a column that no assignment names keeps its value and any other holds the assigned value, computed next to the stored and the incoming row, as the column stores it |
| InsertMeanings.ExcludedMeans | src/engine.rs:5862-5933 | in a conflict update `excluded.x` is the incoming row's value of the column, and x alone or under another qualifier the stored row's |
| InsertMeanings.AssignmentsMean | src/engine.rs:5862-5933 | the assignments of DO UPDATE SET, in order, each go to the column found under their name |
| InsertMeanings.NamedColumnsMean | src/engine.rs:5685-5741 | the column names of a typed conflict policy stand, in order, for the columns found under them |
| InsertMeanings.DoNothingMeans | src/engine.rs:5587-5597 | with key maps for the conflict columns, the next incoming row is skipped exactly if in one of them its key is not NULL and stored, or equal to that of a row accepted before, and otherwise accepted unchanged |
| ChunkRanges.DocumentCovered | src/chunking.rs:100-148 | the chunk loop terminates; its ranges start at 0, end at the end, advance strictly without gaps, hold at most the allowed characters and never cross a section start; behind a chunk that ends before its section the next starts at the first break within the requested overlap, at most half the chunk, or with the whole overlap if there is no break; and each such chunk is cut at the last best break between half the allowed length and all of it |
| ChunkRanges.NothingIsLost | src/chunking.rs:100-148 | every character is in some chunk |
| ChunkRanges.CutChunksAreLong | src/chunking.rs:118-133 | a chunk that ends before its section is at least half the maximum long |
| ChunkRanges.ManyCharactersNeedManyChunks | src/chunking.rs:88-98 | the early rejection by size never refuses a text the loop would accept |
| NaturalBoundaries.Mark | src/chunking.rs:188-229 | the in-place marks are exactly the break qualities: 3 after a blank line, 2 after a sentence, 1 after white space |
| Headings.MarkdownHeadings | src/chunking.rs:236-290 | the line loop, with its fence and underline state, finds the specified headings |
| Headings.HeadingsInOrder | src/chunking.rs:236-290 | headings come in strictly increasing order, each at a line start, with bounded titles |
| HeadingMeanings.HeadingsMean | src/chunking.rs:236-331 | exactly these lines are headings: outside of code blocks and indented by at most three spaces, a line of one to six `#` and then white space or nothing, and a line of text above an underline of `=` or `-`; a code block goes from a line of at least three backticks or tildes to the next with the same character, at least as many, and nothing behind; titles lose their padding and closing `#`, and all but 160 characters |
| Chunking.PartitionByBytes | src/chunking.rs:107-114 | partitioning headings by byte offset is partitioning them by character |
| Chunking.ChunkText | src/chunking.rs:72-149 | chunking returns the chunks of the specified ranges, or the size and count errors, exactly; the ranges cover the document, are cut well and overlap as requested |
| Chunking.ChunksCoverDocument | src/chunking.rs:72-149 | successful chunks are verbatim byte ranges from 0 to the end, touching or overlapping, each within the character limit |
| Chunking.ChunksKeepSections | src/chunking.rs:107-121 | no chunk contains a heading start behind its own start |
| Chunking.ChunksEndNaturally | src/chunking.rs:172-229 | a chunk that ends before its section ends, between half the allowed length and all of it, behind the last blank line; without one, where the text after the last sentence starts; without one, behind the last white space; and otherwise at the maximum |
| Chunking.ChunkHeading | src/chunking.rs:107-131 | a chunk carries the title of the last heading at or before its start, if there is one and it is not empty |
| GpuColumn.ValidateDenseChunks | src/gpu.rs:809-838 | a column is accepted exactly when its chunks lie back to back, are shaped right and add up |
| GpuColumn.LayOut | src/gpu.rs:615-653 | a layout exists exactly when the column is well formed, its sizes are machine words and one row fits a binding |
| GpuColumn.FillShard | src/gpu.rs:655-764 | the two pointers copy exactly the shard's rows, across chunk borders |
| GpuColumn.UploadColumn | src/gpu.rs:655-764 | uploading fails exactly when some cached norm is unusable; otherwise the shards hold the column's rows, all of one size but the last |
| GpuColumn.RowAddress | src/gpu.rs:311-330 | the shard found by division holds the row, and at the local offset lie its elements, norm and flag |
| GpuColumn.ShardsConcatenate | src/gpu.rs:655-764 | the shards concatenated are the column's chunks concatenated |
| GpuExecution.GpuCache.EnsureCached | src/gpu.rs:573-613 | success exactly for cached or cacheable columns; a hit only moves its entry to the front; a miss evicts from the back no more than needed; the byte count stays exact and within budget |
| GpuExecution.GridCoversOnce | src/gpu.rs:846-867 | the dispatch grid has exactly one workgroup for each candidate |
| GpuPipeline.SubmitBatch | src/gpu.rs:341-495 | a submitted batch scans exactly its candidates' rows |
| GpuPipeline.FinishBatch | src/gpu.rs:497-571 | a finished batch delivers, for each candidate and under its own row number, no score exactly where the scanned column stores no vector, and otherwise the score the shader gives that vector and norm, widened; it fails with a zero norm exactly as the shader reports it |
| GpuPipeline.Submit | src/gpu.rs:277-297 | submitting before finishing loses and repeats nothing: all submitted rows are delivered, each with its own row number and score, or are in the one batch in flight |
| GpuScan.ScoreAll | src/gpu.rs:299-308 | a full scan delivers every row once, in order, each under its own number with the score of the data scanned at that row |
| GpuScan.ScoreRows | src/gpu.rs:309-331 | an indexed scan, grouped by shard window by window, delivers every listed row once, under its own number with the score of the data scanned at that row |
| GpuScan.Score | src/gpu.rs:202-338 | a request delivers one result per candidate: under its own row number nothing exactly where the dense column stores NULL, and otherwise the widened score that the shader gives the stored vector and its norm; a fitting request for a cacheable column fails only when the numbers do not fit single precision, the device cannot take or complete a batch, or a candidate has no score |
| GpuScan.StoredDeliveries | src/gpu.rs:541-560 | what a scan of the uploaded data delivers is what scoring the column's stored vectors and norms delivers, row by row |
| GpuScan.ScansContents | src/gpu.rs:655-764 | the device scores the vector the dense column stores at that row, with its norm, or finds none |
| Embedding.ProviderBatchSize | src/embedding.rs:697-722 | the batch is the longest prefix within item limit and budget |
| Embedding.FirstTextFits | src/embedding.rs:605-612 | one accepted text always fits, so the empty-batch error cannot happen |
| Embedding.EverySlotReached | src/embedding.rs:814-837 | as many distinct in-range indexes as slots reach every slot |
| Embedding.ValidateEmbeddings | src/embedding.rs:814-837 | exactly the well-shaped responses are accepted, and slot k then holds the vector sent for index k |
| Embedding.GenerateBatches | src/embedding.rs:599-666 | the input is partitioned in order, each batch the longest that fits; the outputs are the ordered answers joined and tokens add up; on failure the batches before were sent and well answered, and the next got no answer, a malformed one or too many tokens |
| Embedding.Generate | src/embedding.rs:536-597 | input with a text over the provider's limit is refused before anything is sent, and only that is called invalid; otherwise the batches are run |
| Embedding.OutputBelongsToInput | src/embedding.rs:599-666 | output i is the vector the provider sent for input i |
| SnapshotCodec.SnapshotRoundTrip | src/storage.rs:46-254 | a file the writer accepts loads as the same catalog and sequence exactly when the reader's further demands hold |
| SnapshotCodec.NamelessTableIsLost | src/storage.rs:46-194 | a table without a name is written and then refused |
| SnapshotStreams.ChecksumWriter.WriteAll | src/storage.rs:568-592 | however the device splits writes, all bytes are written and the hash is that of the bytes |
| SnapshotStreams.ChecksumReader.ReadExact | src/storage.rs:516-584 | however the device splits reads, the bytes are those of the file and the hash is that of the bytes |
| SnapshotWriter.WriteCatalog | src/storage.rs:196-254 | writing succeeds exactly for what the format can hold, and the file is then the encoding |
| SnapshotLoader.Load | src/storage.rs:46-194 | the reader's nested loops return what parsing and then checking the whole file specifies |
| SnapshotCatalog.ListingIsUnique | src/storage.rs:203-206 | tables are written in name order, whatever order the hash map yields |
| SnapshotCatalog.SnapshotIsReproducible | src/storage.rs:196-254 | equal catalogs give byte-for-byte equal snapshots |
| SnapshotCatalog.Save | src/storage.rs:29-44 | saving depicts the catalog and succeeds exactly for what the format can hold |
| SnapshotCatalog.Open | src/storage.rs:46-194 | opening returns the catalog that the file specifies, or its error |
| SnapshotCatalog.SavedCatalogOpens | src/storage.rs:46-254 | opening what was saved gives back tables, index definitions and sequence, exactly when the reader's demands hold |
| CatalogDemands.LoadableMeans | src/storage.rs:46-194 | the reader takes the file of a catalog if and only if every table has a name, columns with distinct names, indexes on scalar columns, valid rows and no repeated unique key, and no two tables share an index name |
| SnapshotCatalog.RestoreTable | src/storage.rs:129-170 | a loaded table's indexes and key maps are rebuilt to match its rows |
| SnapshotCatalog.UnpackVectors | src/storage.rs:129-166 | packing loaded vectors batch by batch, of any batch size, gives the contents one pass gives |
| Values.KeyOfIsSqlEq | src/engine.rs:6135-6156 | hash keys decide exactly SQL equality unless both sides are NaN |
| Values.CoerceMeans | src/engine.rs:5469-5488 | a value is stored in a column exactly if it has the column's type, or is an integer for a FLOAT column, which alone is converted; otherwise it is the dimension of a vector or the type that is reported |
| Bytes.LeMeans | src/storage.rs:498-514 | byte i of an encoded integer counts the multiples of 256 to the power i |
| Bytes.KnownChecksums | src/durable.rs:590-594 | the checksum is 64-bit FNV-1a: its values for no bytes and for one letter |

## Left out

- Durability.CrashSafety: assumes that writes of one file reach it in order and that replacing the snapshot is atomic; checksums are computed as in the program, without a claim about the damage they detect; the move-aside fallback of `replace_file`, directory synchronization and the process lock are not modelled.
- Durability.RunKeepsInv: statements are one deterministic function of the catalog for each logged operation; parsing, staging of several statements and parse caching are inside that function. `DurableTables` and `DurableSql` fill it in for typed inserts and for single INSERT statements.
- TopK.ParallelTopK: says what is returned when the order ranks the scored rows or there is room for one row; without either the program sorts with an order that is none, and nothing is promised. Scores come from a parameter, so numeric accuracy is not claimed. Row lists from an index are not modelled.
- VectorQueries.RunQuery: requires sort keys that are not NaN, as the general executor's order is none with them; that metrics do not depend on the side, that a squared distance is a number that is not negative, and that the distance is its root are assumptions about the arithmetic. The scan on the GPU is modelled apart, in `GpuScan`.
- Selects.Run: requires sort keys that are not NaN, because NaN has no place in the order; the checks of names that precede the type check, wildcard expansion, and joins, unions and subqueries are not modelled. Grouped queries are modelled up to the evaluation of groups.
- GpuScan.Score: the shader is a parameter that maps elements and norm to a result; buffers and queue submission are represented by their sizes and by a fault for each batch.
- Patches.Prepare: updates stay in order of arrival; the program sorts them by row to repack vector slabs.
- StoredTable.Table.ApplyPatch: tables hold rows, hash indexes and unique-key maps; the repacking of vector slabs after an upsert is not modelled. Dense columns are modelled on their own, for appends and full rebuilds.
- Embedding.GenerateBatches: the provider is a function from a batch to an answer; HTTP status, timeouts, response size limits and JSON are not modelled.
- Headings.MarkdownHeadings: no claim about conformance to CommonMark.
- SqlInserts.PrepareSqlInsert: INSERT from a query is refused, as in the program; the parser that turns the text into a statement is a parameter.
- SqlSoundness.TypeSoundness: starts from syntax trees; the tokenizer, the parser and parameter binding are not modelled.
- UPDATE, DELETE, joins, graph queries and index selection.
- EXPLAIN, query-intent summaries, catalog listings and paging.
- HTTP, authentication, the shell, the console and the Python SDK.
- Lock poisoning and panics.
