# rsduck catalog: a Dafny model

rsduck keeps its own catalog (`rsduck_catalog.rs_*`) beside the physical objects of DuckDB. This project
models the logic that keeps the two in agreement and proves what it promises over all inputs and whole runs.
DuckDB is a plain state: ordered physical columns, rows, views and indexes, with atomic transactions.

`dafny verify dfyconfig.toml` checks everything.

## Layout

| file | subject |
|---|---|
| `Text.dfy` | options, results, ASCII text, decimal numerals |
| `SqlParams.dfy`, `SqlLiterals.dfy`, `SqlRegions.dfy` | the five-state SQL parameter binder and the literals it inserts; a reader of literals; SQL text as regions |
| `Fnv.dfy`, `CatalogChecksum.dfy` | FNV-1a 64 (section 2 of draft-eastlake-fnv) over the framed catalog rows |
| `Oids.dfy`, `CatalogKernel.dfy`, `CatalogMutations.dfy`, `VectorStatus.dfy` | journal, oid allocator, epoch, checksum and `run_catalog_tx` as a transactional state machine; the bodies of mutations and every state they commit; the status of vector indexes |
| `TypeMapping.dfy`, `TypeGrammar.dfy`, `TypePieces.dfy`, `TypeTrees.dfy` | type ids, the packed DECIMAL modifier, the complex type grammar |
| `KeyLists.dfy` | comma-separated attnum lists |
| `TableColumns.dfy`, `TableCreation.dfy`, `TableChanges.dfy` | one table as catalog rows and DuckDB columns, and each change to it |
| `AlterTable.dfy`, `Consistency.dfy`, `AlterRuns.dfy`, `AlterOutcomes.dfy`, `CatalogRuns.dfy` | ALTER TABLE on ordinary and partitioned tables, the invariant, what ALTER does and refuses, whole runs |
| `PrintedTypes.dfy` | what DuckDB reports for the type texts the catalog prints |
| `NotNullFlags.dfy`, `PartitionTypes.dfy` | over whole runs: where NOT NULL differs from DuckDB, and where a partition differs from its parent |
| `StatementRuns.dfy`, `ColumnCells.dfy`, `StartupOfRuns.dfy` | table statements as catalog transactions, the hashed rows of rs_column; what startup makes of their tables |
| `AlterConnection.dfy` | the same statements step by step on a mutable connection, proved equal to the specification |
| `Snapshot.dfy`, `SnapshotRestore.dfy` | saving and restoring tables |
| `CatalogTables.dfy`, `DropRelation.dfy` | relation-level tables, integrity checks, DROP |
| `Recovery.dfy`, `StartupChecks.dfy`, `StartupFixpoint.dfy`, `StartupRun.dfy` | startup validation: specification, its checks in other words, fixpoint proof, the phases as loops |
| `EntrypointSql.dfy` | a reader of the SQL generated for partitioned tables |
| `VectorBatch.dfy` | vector upsert and delete batches |
| `SnapshotGate.dfy`, `Workers.dfy` | the gate between writers and snapshots; queues, answers and permits |
| `Authorization.dfy`, `AccessRuns.dfy` | read authorization and metadata visibility; runs of accounts, relations, partitions and privileges |

Where the program works step by step, a class or a method with loops has the same branches and its
contract ties the result to a specification function; the lemmas are about those functions.

## What turned out conditional

Each of these has a lemma with a concrete case or an exact condition.

- A literal can fuse with its neighbours (`''`, `--`, `$1`): binding keeps the structure if and only if none does
  (`SqlParams.BindingPreservesStructure`).
- DROP leaves a dangling edge if and only if a removed relation owns a foreign key to one that stays
  (`DropRelation.DropKeepsIntegrityIff`). CASCADE removes direct dependents only (`DropRelation.DropRemoves`).
- NOT NULL of the catalog differs from DuckDB's, and is lost in a snapshot, exactly on primary key columns created
  without NOT NULL and not renamed or retyped since (`NotNullFlags.NotNullDiffersIffMarked`,
  `SnapshotRestore.RestoredTableIs`).
- A snapshot gives a type back if and only if the catalog spells it as DuckDB reports it or it is FLOAT, which comes
  back and then fails the check at startup (`Snapshot.TypeIsRestoredIff`, `SnapshotRestore.TableSurvivesASnapshotIff`).
  A column filed as a DECIMAL of unknown precision, such as a `DECIMAL(10,2)[]`, makes the restore fail, and the start
  with it (`SnapshotRestore.RestoreIsRefused`, `SnapshotRestore.DecimalListIsRefused`).
- After DROP ... CASCADE, DuckDB still has the dependent views the catalog has forgotten (`DropRelation.DropAgreesIff`).
- The view over partitions of different types can be rebuilt only if DuckDB unites the types
  (`AlterRuns.RefreshSucceedsIff`).
- A new partition is filed like its parent exactly where the type is printable and no primary key column is left
  undeclared (`PartitionTypes.PartitionColumnMatchesIff`).
- The stored checksum is stale exactly halfway through a vector index status change
  (`CatalogMutations.StaleExactlyHalfway`). Startup notices a stale one only while no journal row is pending, as it
  takes the checksum anew for those (`StartupFixpoint.StartupFailsIff`).
- A type text survives catalog storage if and only if it is canonical; FLOAT and TIMESTAMP WITH TIME ZONE are not
  (`TypeMapping.SpellingIsKeptIffCanonical`, `Snapshot.CheckPassesIffSpelled`). Lists and arrays over such a beginning
  are taken for scalars (`TypeTrees.TakenForScalarIff`), and a quoted field name is cut if and only if it contains a
  quote (`TypeTrees.QuotedNameSplitsIff`).
- Column defaults are not restored from a snapshot (`Snapshot.RestoredIsAlignedIffNoDefaults`).
- Vector versions go down only through absence, and any version may follow it, as deletes keep no tombstone
  (`VectorBatch.LowerMeansAbsent`, `VectorBatch.AnyVersionAfterDelete`).
- An id comes back exactly by the repair of the partition that had it (`AccessRuns.IdReturnsIff`).
- Two parts of one snapshot may differ exactly in the login timestamps (`SnapshotGate.SnapshotsAreConsistent`,
  `SnapshotGate.LoginsShow`).
- The permits of the vector API bound its unanswered commands only together with the requests dropped while waiting
  (`Workers.EarlyReleaseBreaksTheBound`).
- A shutdown message is lost when a queue is full (`Workers.ShutdownIsLostIffFull`).

## Model

| member | source | states |
|---|---|---|
| `SqlParams.HexEncode` | src/db/params.rs:202-210 | The pushed characters are the two lower-case hex digits of every byte in order |
| `SqlParams.ScanSqlParams` | src/db/params.rs:20-156 | The five-state loop returns exactly what folding the token split of the text returns, errors included |
| `SqlParams.ScanDigits` | src/db/params.rs:54-58 | Reads the whole digit run of a placeholder and nothing more |
| `SqlParams.BindPlaceholder` | src/db/params.rs:59-74 | Reads the whole digit run and yields the literal of that parameter, or the error for number 0, an overlong number, a missing or an unprintable parameter |
| `SqlParams.LexIsTheChainedSplit` | src/db/params.rs:20-146 | The scanner makes exactly one split of any text: it renders back to the text and each step fits what follows |
| `SqlParams.BindSucceeds` | src/db/params.rs:16-19 | Binding succeeds exactly when every placeholder can be filled and no parameter beyond the highest one is left over; the result is the text with each placeholder replaced |
| `SqlParams.BindingPreservesStructure` | src/db/params.rs:20-146 | The scanner splits the bound text into the same regions, each placeholder replaced by exactly its literal, if and only if no literal fuses with its neighbours |
| `SqlParams.SeparatedIsSafeForAllParameters` | src/db/params.rs:20-146 | No parameter list can break the structure exactly when no placeholder touches another, follows a quote, dash or dollar, or stands before a quote |
| `SqlParams.RescanFindsNoPlaceholder` | src/db/params.rs:12-19 | Scanning the bound text again finds no placeholder and changes nothing |
| `SqlParams.LiteralIsSelfContained` | src/db/params.rs:161-200 | Every literal starts and ends outside quotes and comments and can be read on its own |
| `SqlParams.QuotedIsSelfContained` | src/db/params.rs:198-200 | A text parameter becomes one complete string literal |
| `SqlParams.ParseSingleQuotedLiteral` | src/mysql_compat.rs:1276-1303 | The reading loop returns the unescaped body, or nothing when the literal does not end the text |
| `SqlParams.ParsingInvertsLiteral` | src/mysql_compat.rs:1272-1303 | A literal parses to a value exactly when it is the printed literal of that value, blanks after it allowed |
| `SqlLiterals.ReadingInvertsLiteral` | src/db/params.rs:161-200 | A reader of SQL values, written apart from the printer, gives every parameter with a literal back: NULL, the truth value, the integer, the float text, the floats in order, the bytes from their hex digits, the text |
| `SqlLiterals.LiteralFailsIff` | src/db/params.rs:161-196 | Exactly numbers that are not finite and empty float arrays have no literal, with the error for each |
| `SqlLiterals.PlaceholderReads` | src/db/params.rs:54-74 | In a bound text, what stands in place of `$n` reads as parameter n, and everything before and after is the binding of what was there |
| `SqlRegions.EveryTextHasRegions` | src/db/params.rs:20-146 | Every text is a list of regions that are described without the scanner: other characters, placeholders, quoted texts and names with doubled quotes, line and block comments, the last one perhaps without its end |
| `SqlRegions.RegionsLex` | src/db/params.rs:20-146 | On such regions the scanner takes exactly the steps of each region in turn |
| `SqlRegions.BindsRegionByRegion` | src/db/params.rs:20-156 | Binding replaces exactly the placeholder regions and copies all others; it succeeds exactly when each can be filled and the last parameter is used, and otherwise reports the first placeholder that cannot be filled, with its reason, or the counts |
| `Fnv.HashByteIsBijective` | src/catalog/checksum.rs:207-212 | For every byte one FNV-1a step is a bijection on 64-bit states, with an explicit inverse |
| `Fnv.HashByteIsInjectiveInByte` | src/catalog/checksum.rs:207-212 | From one state different bytes lead to different states |
| `Fnv.Fnv1aIsInjectiveInState` | src/catalog/checksum.rs:207-212 | A byte stream hashed from two states gives equal results only for equal states |
| `Fnv.OneByteChangeIsDetected` | src/catalog/checksum.rs:207-212 | Streams of equal length that differ in exactly one byte never have the same checksum |
| `Fnv.XorBits` | src/catalog/checksum.rs:207-212 | Exclusive or, bit by bit |
| `Fnv.ReferenceValue` | src/catalog/checksum.rs:207-212 | Offset, prime and order of the steps give the published value for "a" |
| `Fnv.RoundOnZero` | src/catalog/checksum.rs:207-212 | The byte is mixed in before the multiplication |
| `CatalogChecksum.PartIsSelfDelimiting` | src/catalog/checksum.rs:200-205 | `len:bytes;` can be split off the front of a stream in one way only |
| `CatalogChecksum.FrameOfRow` | src/catalog/checksum.rs:200-205 | The row marker is framed as `3:row;` |
| `CatalogChecksum.FramesAreInjective` | src/catalog/checksum.rs:200-205 | A framed list of parts is uniquely decodable |
| `CatalogChecksum.RowsAreDetermined` | src/catalog/checksum.rs:144-168 | A row marker is never taken for the next table label: the rows before it are determined |
| `CatalogChecksum.StreamDeterminesCatalog` | src/catalog/checksum.rs:36-43 | Two catalogs feed the same byte stream exactly when every table has the same rows with the same cells |
| `CatalogChecksum.QueryLabelsAreTables` | src/catalog/checksum.rs:45-142 | No table label of the query list equals the row marker |
| `CatalogChecksum.Hasher.HashBytes` | src/catalog/checksum.rs:207-212 | The loop folds the bytes into the state |
| `CatalogChecksum.Hasher.HashPart` | src/catalog/checksum.rs:200-205 | The state advances by the framed part |
| `CatalogChecksum.Hasher.HashRow` | src/catalog/checksum.rs:144-168 | The state advances by the marker and the cells of one row |
| `CatalogChecksum.Hasher.HashQueryRows` | src/catalog/checksum.rs:144-168 | The state advances by the frames of all rows in order |
| `CatalogChecksum.CalculateCatalogChecksum` | src/catalog/checksum.rs:36-43 | The loop over labelled queries computes the checksum of the whole stream |
| `CatalogChecksum.ChecksumTextInjective` | src/catalog/checksum.rs:36-43 | Different states print as different checksum texts |
| `CatalogChecksum.ChecksumTextReads` | src/catalog/checksum.rs:36-43 | The text is `fnv1a64:` and sixteen hex digits that read as the state |
| `CatalogChecksum.OneByteOfOneCellIsDetected` | src/catalog/checksum.rs:36-43 | Changing one byte of one cell always changes the stored checksum |
| `CatalogKernel.Connection.AllocateOid` | src/catalog/oid.rs:3-17 | Returns the counter and advances it |
| `CatalogKernel.Connection.RefreshCatalogChecksum` | src/catalog/checksum.rs:21-34 | Stores the recomputed checksum and changes nothing else |
| `CatalogKernel.Connection.InsertJournal` | src/catalog/journal.rs:22-41 | Takes the next id for a pending row, with the next epoch, at the end of the journal; fails exactly when the id is taken |
| `CatalogKernel.Connection.FinishJournal` | src/catalog/journal.rs:43-78 | Marks that row applied with the next epoch, leaves every other row, and takes the checksum anew; fails exactly when the row is missing |
| `CatalogKernel.Connection.RunCatalogTx` | src/catalog/journal.rs:3-20 | Commits all statements of the body or, at the first failure, leaves catalog and DuckDB as before |
| `CatalogKernel.TransactKeepsClean` | src/catalog/journal.rs:3-78 | Every transaction, committed or rolled back, keeps: no pending row, checksum current, applied epochs 1..catalog_epoch in journal order |
| `CatalogKernel.BootstrapIsClean` | src/catalog/bootstrap.rs:11-96 | The bootstrapped catalog is clean and has handed out the ids of the bootstrap rows |
| `CatalogMutations.BodiesAreDisciplined` | src/catalog/journal.rs:3-78 | The bodies of CREATE, ALTER, DROP, GRANT and the vector writes, for any number of names and wherever they fail: each journal row opens and is finished in turn, and the checksum is left current |
| `CatalogMutations.StatementIsAllOrNothing` | src/catalog/mutation/drop.rs:22-58 | A statement over several names leaves exactly what its loop comes to or, if one name is refused, what was there before; the catalog rows are those of the objects and the catalog is clean either way |
| `CatalogMutations.CommitsAreOk` | src/catalog/mutation/vector_index.rs:238-373 | A mutation, rebuild or compaction, whatever fails in it, commits states with the journal in order, ends with a current checksum and has a stale one at most halfway through a status change |
| `CatalogMutations.StaleExactlyHalfway` | src/catalog/mutation/vector_index.rs:341-373 | Over any run from bootstrap: no committed state has a pending row, applied epochs are 1..catalog_epoch, and the stored checksum is stale exactly between the two commits of a status change that alters the hash; such a change always alters the hashed bytes |
| `VectorStatus.AllowedIff` | src/catalog/mutation/vector_index.rs:375-402 | Which changes of status are allowed: unavailable from every known status, failed from work under way, active from building, rebuilding and compacting, rebuilding unless work is under way |
| `VectorStatus.TransitionDoes` | src/catalog/mutation/vector_index.rs:341-373 | A change of status happens exactly if the index has a row and it is allowed from there; it sets status and error of that row and no other cell, first without and then with the checksum taken anew |
| `VectorStatus.CompactionDoes` | src/catalog/mutation/vector_index.rs:298-324 | Compacting does nothing unless the index is active; otherwise it is marked as compacting and then as active, or as failed with the error |
| `VectorStatus.RebuildDoes` | src/catalog/mutation/vector_index.rs:238-296 | Rebuilding does nothing unless allowed; otherwise the index is marked as rebuilding, and then the whole transaction is committed or the index is marked as failed with the error |
| `StatementRuns.RunsAreCleanAndSound` | src/catalog/journal.rs:3-78 | From bootstrap, running table statements as catalog transactions gives the tables of `CatalogRuns.Run`, in step with DuckDB, under a current checksum of their own rows |
| `StatementRuns.HashedBytesDetermineColumns` | src/catalog/checksum.rs:76-80 | If the checksums of two states that runs reach are taken of the same bytes, both have the same rs_column rows for every relation, with each name, type, modifier, number and flag |
| `StatementRuns.HashedBytesAreTheCatalog` | src/catalog/checksum.rs:45-142 | Two states hash the same bytes exactly when they agree in epoch, next id, every journal row and the cells of the other tables |
| `CatalogKernel.IdsAreNeverReused` | src/catalog/oid.rs:3-17 | Two transactions of one run never take the same id from the committed allocator |
| `TypeMapping.DecodeInvertsEncode` | src/catalog/type_mapping.rs:10-16 | A DECIMAL modifier decodes to the precision and scale it was made of |
| `TypeMapping.EncodeInvertsDecode` | src/catalog/type_mapping.rs:62-73 | A decodable modifier is the one the encoder makes exactly when both halves fit in eight bits |
| `TypeMapping.DecodeIsLossy` | src/catalog/type_mapping.rs:62-73 | Decoding cuts each half to eight bits: another modifier decodes to the same type |
| `TypeMapping.DecimalTextRoundTrip` | src/catalog/type_mapping.rs:10-73 | `DECIMAL(p,s)` survives being stored as a modifier and printed back |
| `TypeMapping.ModifierOfWord` | src/catalog/type_mapping.rs:10-60 | DECIMAL and NUMERIC, in any case, give the modifier of their precision and scale exactly for 1 <= precision <= 38 and scale <= precision, and none without them |
| `TypeMapping.SpellingIsKeptIffCanonical` | src/catalog/type_mapping.rs:101-130 | A scalar type text is printed back unchanged exactly when it is the catalog name of its type or a `DECIMAL(p,s)` |
| `TypeMapping.FloatIsRespelled` | src/catalog/bootstrap.rs:42-53 | FLOAT comes back as REAL |
| `TypeMapping.TimestampPrefixIsRespelled` | src/catalog/type_mapping.rs:125-127 | Any text that begins with `timestamp` comes back as TIMESTAMP |
| `TypeGrammar.SplitTopLevel` | src/catalog/type_mapping.rs:297-340 | The cursor loop returns the top-level parts, and an error for unbalanced brackets or quotes |
| `TypePieces.SplitsAtCommas` | src/catalog/type_mapping.rs:297-340 | On texts described without the splitter, as characters, quotations with three kinds of quotes and groups in two kinds of brackets: the result is the trimmed parts between the commas outside groups and quotations, an empty last one dropped; a bracket that closes nothing and a group or quotation left open are refused |
| `TypePieces.EveryTextHasParts` | src/catalog/type_mapping.rs:297-340 | Every text is of that form |
| `TypeGrammar.SplitStructField` | src/catalog/type_mapping.rs:342-378 | Name and type are cut at the first closing quote or the first space |
| `TypeGrammar.ValidateSupportedComplexType` | src/catalog/type_mapping.rs:182-239 | The branches and loops accept exactly what the predicate on lists, arrays, structs and maps accepts |
| `TypeTrees.SplitInvertsJoin` | src/catalog/type_mapping.rs:297-340 | Splitting joined parts returns the parts: commas inside brackets do not split |
| `TypeTrees.PrintedIsPart` | src/catalog/type_mapping.rs:297-340 | Every printed type, however deep, is balanced and has no top-level comma |
| `TypeTrees.FieldPartsInvert` | src/catalog/type_mapping.rs:342-378 | A printed field with an unquoted name splits into that name and type |
| `TypeTrees.SupportedIffShallow` | src/catalog/type_mapping.rs:182-239 | Of the printed types, validation accepts exactly: a list of a scalar, FLOAT[N] with N > 0, a non-empty STRUCT of scalars, a MAP of scalars |
| `TypeTrees.ArrayIff` | src/catalog/type_mapping.rs:245-277 | A fixed array is accepted exactly for FLOAT elements and a dimension between 1 and 2^64 - 1 |
| `TypeTrees.TakenForScalarIff` | src/catalog/type_mapping.rs:101-130 | Of the types that are no scalars, exactly the lists and arrays, of any depth, whose innermost element text begins like DECIMAL, NUMERIC, TIMESTAMP, VARCHAR( or TIME( are taken for scalars |
| `TypeTrees.ColumnTypeSupportedIff` | src/catalog/type_mapping.rs:137-142 | A column may be declared exactly with a scalar, a shallow complex type, or a type taken for a scalar |
| `TypeTrees.DecimalListIsTakenForScalar` | src/catalog/type_mapping.rs:101-130 | `DECIMAL(p,s)[]` is filed as a DECIMAL without precision |
| `TypeTrees.QuotedNameSplitsIff` | src/catalog/type_mapping.rs:347-365 | A field with a quoted name splits into that name and its type exactly when the name contains no quote |
| `TypeTrees.QuotedFieldSupportedIff` | src/catalog/type_mapping.rs:198-213 | Such a field is accepted in a STRUCT exactly when moreover its type is a scalar |
| `KeyLists.AnyPartEquals` | src/catalog/mutation/alter_table.rs:667-683 | The search finds an attnum exactly when some trimmed part is its numeral |
| `KeyLists.ParseInvertsJoin` | src/catalog/mutation/constraint.rs:339-344 | Parsing a rendered key list gives back its attnums |
| `KeyLists.SignedNumberReads` | src/catalog/mutation/constraint.rs:339-344 | A part reads as its number, signs included, exactly if it fits in 32 bits |
| `KeyLists.ContainsIffMember` | src/catalog/mutation/alter_table.rs:651-684 | On rendered lists the string search finds exactly the members: 1 is not 12 |
| `TableColumns.AddOnKeepsTable` | src/catalog/mutation/alter_table.rs:59-73 | A column added by DuckDB and then written to the catalog lands last on both sides |
| `TableColumns.DropOnKeepsTable` | src/catalog/mutation/alter_table.rs:499-512 | Dropping a column removes the same position from catalog and DuckDB |
| `TableColumns.RenameOnKeepsTable` | src/catalog/mutation/alter_table.rs:133-168 | Renaming keeps the place of the column and of every other one |
| `TableColumns.SetTypeOnKeepsTable` | src/catalog/mutation/alter_table.rs:170-204 | Changing a type keeps every place; catalog id and modifier are those of the new DuckDB type |
| `TableColumns.SyncKeepsTable` | src/catalog/mutation/alter_table.rs:354-397 | Writing what DuckDB reports into the row of the changed column restores agreement |
| `TableColumns.EnsureTypeGrows` | src/catalog/type_mapping.rs:75-99 | Registering a type keeps registered ids distinct, and adds at most this type, under the next id |
| `TableChanges.ChangeTableKeepsTable` | src/catalog/mutation/alter_table.rs:206-578 | Each change of one physical table keeps agreement, never renumbers or revives a row, and acts on the column list as add, drop, rename or retype |
| `TableChanges.ChangeChildrenKeeps` | src/catalog/mutation/alter_table.rs:219-245 | Running the change over all partitions changes each of them so |
| `TableChanges.ChangeChildrenFrame` | src/catalog/mutation/alter_table.rs:219-245 | and leaves every other relation as it was |
| `TableCreation.CreateOnIsSound` | src/catalog/mutation/relation.rs:3-60 | A new table agrees with the columns it was filed from, numbered from 1 without holes |
| `AlterTable.AlterOrdinaryKeepsRelation` | src/catalog/mutation/alter_table.rs:3-131 | A successful ALTER of an ordinary table keeps it sound, keeps every attnum, touches no other relation and keeps its key lists naming active columns |
| `AlterTable.DropKeepsKeys` | src/catalog/mutation/alter_table.rs:604-649 | Dropping columns that pass the key checks leaves every key list naming active columns |
| `AlterTable.ParentFollowsDrop` | src/catalog/mutation/alter_table.rs:515-578 | The own rows of a partitioned table lose exactly the named columns |
| `AlterTable.ParentFollowsRetype` | src/catalog/mutation/alter_table.rs:263-313 | The own rows of a partitioned table take the new type from the first partition, even where their types differed before |
| `AlterRuns.PartitionKeyStays` | src/catalog/mutation/alter_table.rs:248-259 | The partition key is still an active column after any ALTER, under its new name if renamed |
| `AlterRuns.AlterPartitionsKeepsDb` | src/catalog/mutation/alter_table.rs:206-578 | ALTER of a partitioned table keeps: partitions have its active columns in order with defaults in the same places, no partition has a larger attnum, the partition key and all key lists name active columns |
| `AlterRuns.AlterRelationKeepsDb` | src/catalog/mutation/alter_table.rs:3-131 | Any successful ALTER keeps the whole catalog consistent with DuckDB and never reuses an attnum |
| `AlterRuns.RefreshSucceedsIff` | src/catalog/partition/entrypoint.rs:3-23 | In every state runs reach, the view over the partitions can be rebuilt exactly when DuckDB unites their types in every column, so always while the partitions have the same types; the view then shows the united types |
| `AlterOutcomes.AlterDoes` | src/catalog/mutation/alter_table.rs:3-131 | What a successful ALTER does to the columns of its table and of each partition: the new column is last, as declared; the named columns and no others go; the renamed column keeps its place; the retyped one takes the new type where it stands |
| `AlterOutcomes.AddedColumnIsNumbered` | src/catalog/mutation/alter_table.rs:417-471 | An added column takes the number after the largest its table ever had, in all partitions alike |
| `AlterOutcomes.AlterIsAllowed` | src/catalog/mutation/alter_table.rs:3-131 | No successful ALTER names a missing column without IF EXISTS, an existing one without IF NOT EXISTS, a partition, a key column to be dropped, or the partition key where that is refused; under IF NOT EXISTS an existing column changes nothing |
| `AlterOutcomes.OrdinarySucceedsIff` | src/catalog/mutation/alter_table.rs:3-131 | On an ordinary table an ALTER succeeds exactly when it is allowed so and DuckDB and the type mapping can do it |
| `CatalogRuns.IndexColumnsToAttnums` | src/catalog/mutation/constraint.rs:230-280 | The loop renders the attnums of the named columns, or fails for an unknown or complex one |
| `CatalogRuns.CreateTableDoes` | src/catalog/mutation/relation.rs:3-60 | CREATE TABLE files the columns it declares, in order, with their types, NOT NULL and defaults; in DuckDB primary key columns are NOT NULL as well |
| `CatalogRuns.AddPartitionDoes` | src/catalog/partition/create.rs:128-210 | A new partition takes its place in the order of the partitions, and its rows are what DuckDB reports for the columns printed of its parent |
| `CatalogRuns.CreateKeyDoes` | src/catalog/mutation/constraint.rs:230-280 | A new key list reads as the numbers of the named columns, in order, and comes after the others |
| `CatalogRuns.AddPartitionKeepsDb` | src/catalog/partition/create.rs:128-210 | A partition created from the printed columns of its parent, filed as DuckDB reports it, keeps the whole catalog consistent |
| `CatalogRuns.DropKeepsDb` | src/catalog/mutation/drop.rs:22-58 | DROP TABLE takes the partitions of a partitioned table and the key lists of and on dropped tables with it and keeps the rest consistent |
| `CatalogRuns.DropKeepsDeps` | src/catalog/mutation/drop.rs:22-58 | Exactly the dependency rows of and to dropped relations go |
| `CatalogRuns.RunKeepsDb` | src/catalog/mutation/alter_table.rs:3-131 | Over any run of create, partition, index, ALTER and DROP TABLE statements, failed ones included, the invariant holds, attnums and ids of relations are never reused, dropped columns stay dropped, key lists go only with a table they concern, and a dependency row between relations that stay goes only from a partitioned table to what was its partition |
| `CatalogRuns.TablesMatchDuckdb` | src/catalog/mutation/alter_table.rs:354-397 | After any run: active catalog columns in attnum order are the DuckDB columns in order, with their types and modifiers and with a stored default exactly where DuckDB has one; names are unique ignoring case; relnatts is the active count |
| `NotNullFlags.NotNullDiffersIffMarked` | src/catalog/mutation/table.rs:346-370 | After any run: the catalog demands NOT NULL only where DuckDB does, and the two differ exactly on columns created as primary key columns not declared NOT NULL and neither renamed nor retyped since |
| `NotNullFlags.ChangeTableFlags` | src/catalog/mutation/alter_table.rs:354-397 | Adding a column, dropping, renaming and retyping change the columns where the flags differ as stated there, for one table |
| `NotNullFlags.DeclaredIsUnmarked` | src/catalog/mutation/table.rs:346-370 | If every CREATE TABLE declares NOT NULL on its primary key, the flags never differ |
| `NotNullFlags.UndeclaredPrimaryKey` | src/catalog/mutation/table.rs:346-370 | `id BIGINT PRIMARY KEY` is nullable in the catalog and NOT NULL in DuckDB |
| `CatalogRuns.PartitionsMatchParent` | src/catalog/mutation/alter_table.rs:417-471 | After any run: each partition has the active columns of its parent in order and defaults in the same places, the next shared attnum is free in all of them, the partition key is an active column, and the table depends on exactly its partitions |
| `PrintedTypes.ComesBackIffPrintable` | src/catalog/type_mapping.rs:101-130 | A type id and modifier come back from a column created with their printed text exactly when: a DECIMAL has a modifier the encoder makes, another built-in type is not TEXT and has none, a registered type keeps its text |
| `PartitionTypes.PartitionColumnMatchesIff` | src/catalog/partition/create.rs:8-35 | A new partition is filed with the type of its parent exactly where that condition holds, and with its NOT NULL exactly where no primary key column is left undeclared |
| `PartitionTypes.PartitionDiffersIffMarked` | src/catalog/partition/create.rs:128-210 | After any run: a partition column is filed differently from its parent exactly when its type was not printable as the partition was created and it has not been retyped since |
| `PartitionTypes.UndeclaredAndUnprintable` | src/catalog/partition/create.rs:8-35 | Every undeclared primary key column and every DECIMAL without precision make the first partition differ |
| `PartitionTypes.PartitionsMayDiffer` | src/catalog/partition/create.rs:8-35 | The same for `ts TIMESTAMP PRIMARY KEY, tags DECIMAL(10,2)[]` |
| `CatalogRuns.KeysNameActiveColumns` | src/catalog/mutation/constraint.rs:339-344 | After any run: every number parsed from a stored key list is the attnum of an active column |
| `AlterConnection.Connection.LoadDuckdbColumns` | src/catalog/mutation/constraint.rs:403-457 | Returns the columns and registers the complex types among them |
| `AlterConnection.Connection.SyncCatalogColumn` | src/catalog/mutation/alter_table.rs:354-397 | Updates one row and its default to what DuckDB reports |
| `AlterConnection.Connection.AddColumnTo` | src/catalog/mutation/alter_table.rs:59-73 | DuckDB adds the column, then its row and the column count are written |
| `AlterConnection.Connection.DropColumnTargets` | src/catalog/mutation/alter_table.rs:580-602 | Looks every name up; a missing one is an error unless IF EXISTS |
| `AlterConnection.Connection.EnsureColumnCanDrop` | src/catalog/mutation/alter_table.rs:604-649 | True exactly when no key list of the relation mentions the attnum |
| `AlterConnection.Connection.DropOrdinaryColumns` | src/catalog/mutation/alter_table.rs:499-512 | Checks and drops the targets one by one |
| `AlterConnection.Connection.DropNamesOf` | src/catalog/mutation/alter_table.rs:544-570 | Looks each column up by name in the partition itself and drops it |
| `AlterConnection.Connection.RefreshPartitionEntrypoint` | src/catalog/partition/entrypoint.rs:80-120 | Rebuilds the view and the dependency rows: afterwards the table depends on exactly its partitions and no other dependency row changes; fails exactly when there is no partition or DuckDB cannot unite their columns |
| `AlterConnection.Connection.AlterPartitionedAddColumn` | src/catalog/mutation/alter_table.rs:417-471 | Adds the column to every partition and the parent under one shared attnum |
| `AlterConnection.Connection.AlterPartitionedRenameColumn` | src/catalog/mutation/alter_table.rs:206-261 | Renames in every partition and the parent, and the partition key with it |
| `AlterConnection.Connection.AlterPartitionedSetColumnType` | src/catalog/mutation/alter_table.rs:263-313 | Retypes every partition and gives the parent what the first partition shows |
| `AlterConnection.Connection.AlterPartitionedDropColumns` | src/catalog/mutation/alter_table.rs:515-578 | Checks everything on the parent first, then drops in every partition and the parent |
| `AlterConnection.Connection.AlterTableRelation` | src/catalog/mutation/alter_table.rs:3-131 | The statement as a transaction: it succeeds exactly when its specification does, with that result; otherwise nothing changes; a success was allowed, does what the statement says, changes only dependency rows of that table, and keeps the invariant |
| `Snapshot.RepairRestores` | src/db/snapshot.rs:553-653 | The repair gives back exactly the complete rows or is refused: always where a column filed as DECIMAL has no precision, never where all modifiers were stored and have one, nor where each DECIMAL is a `DECIMAL(p,s)` |
| `Snapshot.RowsAreValidIff` | src/db/snapshot.rs:656-701 | The CREATE TABLE of a restore can be written exactly when every column DuckDB or the catalog takes for a DECIMAL has a modifier |
| `Snapshot.RestoreIs` | src/db/snapshot.rs:497-701 | For every table in step with its rows and all data: refused if a row cannot be printed; otherwise, with all modifiers stored or each DECIMAL a `DECIMAL(p,s)`, the columns of the catalog as DuckDB reports them, filled from the file, and complete catalog rows |
| `Snapshot.RestoreInvertsSaveIff` | src/db/snapshot.rs:497-701 | Save and restore give back the rows and types of a table, in the same columns although rows are inserted by position, exactly when every type is faithful (a canonical scalar other than REAL, a `DECIMAL(p,s)`, a complex type) or FLOAT |
| `Snapshot.TypeIsRestoredIff` | src/db/snapshot.rs:684-700 | The type DuckDB reports for the restored column is the old one exactly under that condition |
| `Snapshot.CheckPassesIffSpelled` | src/catalog/recovery.rs:642-677 | A table in step passes the startup column check exactly when the catalog spells each type as DuckDB does, ignoring case |
| `Snapshot.FloatFailsTheCheck` | src/catalog/recovery.rs:642-677 | A table with a FLOAT column never passes |
| `Snapshot.RestoredPassesTheCheckIff` | src/catalog/recovery.rs:642-677 | A table that could be restored, its types kept or not, passes the startup column check exactly when no column is of single precision, TEXT, or a complex type that reads as a DECIMAL |
| `Snapshot.RestorableAndPassesIff` | src/catalog/recovery.rs:642-677 | A type is both given back and accepted at startup exactly when it is faithful and not REAL, so FLOAT is the one type that comes back and is not accepted |
| `Snapshot.RestoredIsAlignedIffNoDefaults` | src/db/snapshot.rs:693-698 | Defaults are not restored: on a table given back, catalog and DuckDB agree exactly when there were none |
| `Snapshot.ValidateCatalogColumnsMatchDuckdb` | src/catalog/recovery.rs:642-677 | The comparing loop accepts exactly matching column lists |
| `SnapshotRestore.Restore.RepairRows` | src/db/snapshot.rs:611-652 | The loop over catalog and Parquet columns repairs row by row, updating by attnum |
| `SnapshotRestore.Restore.RepairLegacyDecimalModifiersFromParquet` | src/db/snapshot.rs:553-653 | Looks at the file only when a modifier is missing; every mismatch is an error |
| `SnapshotRestore.Restore.RestoreSnapshotTable` | src/db/snapshot.rs:497-551 | Repairs, creates, loads and counts; a missing file only marks the relation unavailable |
| `Snapshot.RowsAreCounted` | src/db/snapshot.rs:497-551 | A file that does not hold the number of rows the manifest states is refused |
| `SnapshotRestore.TableSurvivesASnapshotIff` | src/db/snapshot.rs:497-701 | After any run of table statements a table gets its types and rows back exactly when every type is faithful or FLOAT, and passes the startup check as well exactly when the catalog spells every type as DuckDB reports it |
| `SnapshotRestore.RestoredTableIs` | src/db/snapshot.rs:656-701 | After any run, whatever the types: a restored table has the columns of the catalog with the types DuckDB reports for the printed texts, and NOT NULL as before exactly on the columns where catalog and DuckDB agreed on it |
| `SnapshotRestore.RestoreIsRefused` | src/db/snapshot.rs:553-653 | After any run: a restore is refused whatever the data if some column is filed as a DECIMAL and its precision is not known; otherwise, with all modifiers stored, only for a value that does not convert |
| `SnapshotRestore.DecimalListIsRefused` | src/db/snapshot.rs:625-631 | `tags DECIMAL(10,2)[]` can be created but not restored, whatever the data |
| `StartupRun.Validator.LoadDuckdbColumns` | src/catalog/mutation/constraint.rs:403-457 | Registers types until an unsupported one; an object without columns is an error |
| `StartupRun.Validator.ValidatePhysical` | src/catalog/recovery.rs:573-597 | Accepts exactly an existing object of the right kind whose columns match |
| `StartupRun.Validator.ValidateIndexPhysical` | src/catalog/recovery.rs:599-640 | Accepts exactly an index that DuckDB has: for a partitioned table, on every active partition |
| `StartupRun.Validator.ReconcileVectorIndexRuntimeStatus` | src/catalog/recovery.rs:318-365 | Refused exactly for an active index without the extension; afterwards the index is in no transient state and, if active, of the loaded version, and nothing but its own status was touched |
| `StartupRun.Validator.ValidatePhysicalRelations` | src/catalog/recovery.rs:263-316 | The loop marks every active relation that does not match |
| `StartupRun.Validator.ValidateChildren` | src/catalog/recovery.rs:427-457 | Stops at the first bad partition, which is marked failed and stays as it is otherwise |
| `StartupFixpoint.CheckEntrySettles` | src/catalog/recovery.rs:459-552 | Whenever the entrypoint check passes, rebuilt or not, the SQL on file is the expected one, and nothing another check relies on changed |
| `StartupRun.Validator.ValidatePartitionedRelation` | src/catalog/recovery.rs:427-484 | Checks partitions, entrypoint and dependency rows of one parent; when it passes, the SQL on file, read back, names exactly the active partitions in order |
| `StartupRun.Validator.ValidatePartitionedRelations` | src/catalog/recovery.rs:387-425 | The loop marks every parent that fails |
| `StartupRun.Validator.ValidateCatalogJournalState` | src/catalog/recovery.rs:59-120 | No row stays pending and no other row changes; if one was pending the checksum is current; catalog and objects are untouched |
| `StartupRun.Validator.ValidateAfterStart` | src/catalog/recovery.rs:3-57 | A start succeeds exactly when its specification does, leaves a state the next start does not change, and every entrypoint on file reads as the active partitions of its table |
| `StartupFixpoint.LaterKeepsIntegrity` | src/catalog/recovery.rs:122-244 | Nothing startup changes can break a check of integrity |
| `StartupFixpoint.CheckParentSettles` | src/catalog/recovery.rs:427-484 | A parent whose check passes has only active matching partitions, the expected entrypoint and exactly their edges |
| `StartupFixpoint.ParentStaysSettled` | src/catalog/recovery.rs:387-425 | Checking one parent never unsettles another |
| `StartupFixpoint.StartupSettles` | src/catalog/recovery.rs:3-57 | After a successful start: no pending journal row, integrity, current checksum, every active table, view and index matches, no transient vector index, every active parent settled: the SQL of its entrypoint, read back, names exactly its active partitions |
| `StartupFixpoint.SettledIsFixpoint` | src/catalog/recovery.rs:3-57 | Starting on such a state succeeds and changes nothing |
| `StartupFixpoint.StartupIsIdempotent` | src/catalog/recovery.rs:3-57 | A second start after a successful one succeeds and changes nothing |
| `StartupFixpoint.StartupFailsIff` | src/catalog/recovery.rs:3-57 | A start fails exactly for its header, a row that breaks integrity, a stale checksum while no row is pending, or an active vector index that is there while the extension is not loaded |
| `StartupFixpoint.PassingParentReads` | src/catalog/recovery.rs:427-484 | A parent whose check passes has an entrypoint on file that reads as its active partitions in order |
| `StartupFixpoint.FailedChildIsBlamed` | src/catalog/recovery.rs:427-457 | If the partitions fail, one of them does not match its parent and is marked, and nothing else is |
| `StartupChecks.IntegrityFailsIff` | src/catalog/recovery.rs:122-244 | Integrity fails exactly when some row breaks the catalog: one of the listed rows without its schema, relation, type or index, a bad vector index, two active relations of one name, or a dependency row with a missing end |
| `StartupChecks.ObjectPassesIff` | src/catalog/recovery.rs:573-597 | A relation passes exactly when DuckDB has an object of the right kind whose column types all load and whose columns agree with the catalog one by one |
| `StartupChecks.IndexPresentIff` | src/catalog/recovery.rs:599-640 | An index passes exactly when DuckDB has it, for a partitioned table on every active partition |
| `EntrypointSql.UnionEntryReads` | src/catalog/partition/entrypoint.rs:3-23 | A reader of such statements, written apart from the printer, gives the view and its tables back: schema and name of each partition, all of them, in order |
| `EntrypointSql.EmptyEntryReads` | src/catalog/partition/entrypoint.rs:25-78 | Without partitions it reads as a view over the columns of the catalog, names and types in order |
| `EntrypointSql.PrintedNamesPartitions` | src/catalog/partition/entrypoint.rs:3-78 | What is printed for a parent names exactly its active partitions |
| `StartupOfRuns.TableStaysAvailableIff` | src/catalog/recovery.rs:3-57 | After any run, a start that succeeds keeps a table available exactly when each of its types loads and is spelled by the catalog as by DuckDB, whatever else the start finds |
| `StartupOfRuns.NothingIsLostIff` | src/catalog/recovery.rs:3-57 | If all active relations are tables a run left, a start marks nothing unavailable exactly when that holds of every type of every table |
| `DropRelation.CatalogStore.DependentRelationOids` | src/catalog/lookup.rs:454-476 | Exactly the relations with an edge to this one |
| `DropRelation.CatalogStore.DependentConstraintOids` | src/catalog/lookup.rs:478-507 | Exactly the constraints of other tables with an edge to this one |
| `DropRelation.CatalogStore.DeleteRelationCatalog` | src/catalog/lookup.rs:588-676 | Deletes the rows of one relation table by table, vector rows before index rows, recounts the flag of its table, and leaves every other row of every table |
| `DropRelation.CatalogStore.DropRelationDependencies` | src/catalog/lookup.rs:433-452 | Refused without CASCADE when anything depends; otherwise constraints go first, then relations |
| `DropRelation.CatalogStore.DropObject` | src/catalog/mutation/drop.rs:22-58 | A managed partition is refused; without CASCADE so is anything something depends on, and so is what DuckDB cannot drop; otherwise exactly the relation, its direct dependents and its partitions go from the catalog, with all their rows, and the relation and its partitions from DuckDB, while every other row of every table stays; integrity, and agreement with DuckDB, hold afterwards exactly under the conditions below |
| `DropRelation.DropAgreesIff` | src/catalog/lookup.rs:433-576 | After DROP, tables and views are the same in the catalog and in DuckDB exactly when nothing but indexes depended on the relation: a dependent view loses its catalog rows and stays in DuckDB |
| `DropRelation.DeleteKeepsTheRest` | src/catalog/lookup.rs:588-676 | Deleting one relation keeps every other check of integrity |
| `DropRelation.RemovalKeepsIntegrityIff` | src/catalog/lookup.rs:569-676 | Removing any relations after any constraints keeps integrity exactly when no removed relation owns a remaining foreign key to one that stays |
| `DropRelation.DropRemoves` | src/catalog/lookup.rs:433-452 | A relation goes exactly when it is the dropped one, depends on it directly, or is its partition |
| `DropRelation.DropLeaves` | src/catalog/lookup.rs:588-676 | What DROP leaves of every catalog table: of each relation that stays its row, columns and entrypoint as they were; index, vector and row-type rows exactly where neither their relation nor their table went; schemas and types untouched |
| `DropRelation.DropKeepsIntegrityIff` | src/catalog/recovery.rs:122-244 | DROP keeps all integrity checks at zero exactly under that condition |
| `DropRelation.OwnedKeyBreaksIntegrity` | src/catalog/lookup.rs:606-626 | A table with a foreign key, dropped, leaves an edge of a constraint that is gone |
| `DropRelation.DeleteKeepsIndexFlags` | src/catalog/lookup.rs:592-675 | relhasindex stays true exactly for relations with an index row |
| `VectorBatch.ValidateUpsertRequest` | src/db/vector.rs:292-333 | Accepts exactly the batches of permitted size with distinct keys and valid items; otherwise the error names what is wrong with the batch or with its first bad item |
| `VectorBatch.ValidateDeleteRequest` | src/db/vector.rs:335-350 | Accepts exactly the batches of permitted size with distinct keys and no negative version |
| `VectorBatch.UpsertItemsIs` | src/db/vector.rs:68-140 | The loop refuses exactly the batches with a stale or conflicting item; otherwise each newer item is stored with its version, hash and vector, nothing else changes, and applied plus idempotent is the batch size |
| `VectorBatch.RefusalsBlame` | src/db/vector.rs:68-140 | A refused batch has an item with the reported fault: older than the stored row, or of its version with another hash |
| `VectorBatch.UpsertAddsVectors` | src/db/vector.rs:265-290 | An accepted batch adds as many vectors as it has newer keys that had none |
| `VectorBatch.DeleteRemovesVectors` | src/db/vector.rs:265-290 | A delete takes away as many vectors as its keys had |
| `VectorBatch.OrderDoesNotMatter` | src/db/vector.rs:68-140 | Any permutation of a batch has the same outcome, rows and counts |
| `VectorBatch.ReplayIsIdempotent` | src/db/vector.rs:68-140 | Sending an accepted batch again applies nothing and changes nothing |
| `VectorBatch.UpsertIsMonotone` | src/db/vector.rs:68-140 | An upsert removes no key and lowers no version |
| `VectorBatch.DeleteItemsIs` | src/db/vector.rs:142-183 | A delete is refused exactly when an item is older than the stored row; otherwise exactly its keys go |
| `VectorBatch.DeleteReplayIsIdempotent` | src/db/vector.rs:142-183 | Sending an accepted delete again applies nothing |
| `VectorBatch.VersionsNeverGoDown` | src/db/vector.rs:68-202 | Over any run the version of a key never goes down while the key stays present |
| `VectorBatch.LowerMeansAbsent` | src/db/vector.rs:68-202 | In any run a version lower than before means that the key was absent in between |
| `VectorBatch.AnyVersionAfterDelete` | src/db/vector.rs:142-183 | Absence is enough: from every state, a delete of the key lets any version of it in |
| `VectorBatch.VectorSpace.UpdateVectorCount` | src/db/vector.rs:265-290 | The stored count is the number of rows with a vector |
| `VectorBatch.VectorSpace.UpsertVectors` | src/db/vector.rs:68-140 | All newer items are written, each with its version, hash and vector, or nothing changes; the exact condition of success; the stored count grows by the number of newer keys that had no vector |
| `VectorBatch.VectorSpace.DeleteVectors` | src/db/vector.rs:142-183 | All keys go or nothing changes; the exact condition of success; the stored count falls by the number of keys that had a vector |
| `SnapshotGate.LoginIsMissedIff` | src/catalog/checksum.rs:121-125 | A query misses every login exactly when it selects neither updated_at nor last_login_at |
| `SnapshotGate.LoginIsUnhashed` | src/catalog/auth/principal.rs:113-128 | A login changes no cell the checksum reads: with the columns of the rs_user query all hashed tables stay, and so do epoch and checksum |
| `SnapshotGate.TakeKeepsInv` | src/db/worker.rs:43-281 | Every step of every worker keeps: a command that takes the gate works alone, between such commands the catalog is clean, and an export in progress has read one state |
| `SnapshotGate.SnapshotsAreConsistent` | src/db/snapshot.rs:98-124 | In every interleaving of commands, logins and snapshots each snapshot is written, never refused because the catalog changed, and but for the two timestamps of users its parts come from one state, clean and described by its metadata |
| `SnapshotGate.LoginsShow` | src/catalog/auth/principal.rs:113-128 | In every state a login during an export is possible and the snapshot is written with the row from before it in one part and from after it in the next |
| `SnapshotGate.LoginSets` | src/catalog/auth/principal.rs:113-128 | What differs then is exactly updated_at and last_login_at, in the rows with the id of the account |
| `Workers.TakeKeepsInv` | src/db/worker.rs:5-84 | Every step conserves commands: each accepted one is in one queue, at one worker or answered, once; permits are not overdrawn |
| `Workers.AtMostOneAnswer` | src/db/worker.rs:5-28 | In every run no command is answered twice, a command is unanswered exactly while a worker has it, and queues stay within capacity |
| `Workers.EveryCommandIsAnswered` | src/db/worker.rs:43-84 | From any reachable state, once the workers have had their turns every accepted command has exactly one answer |
| `Workers.AnswersTellTheFate` | src/db/worker.rs:43-84 | In every run a caller is told a result exactly if a worker began its command and finished it, and that the worker stopped only if none began |
| `Workers.FirstInFirstOut` | src/db/worker.rs:43-84 | While a command waits, none behind it in its queue is begun |
| `Workers.UnansweredVectorsAreBounded` | src/server/web.rs:752-781 | As the permit belongs to the request, which a timeout only detaches, unanswered vector commands outnumber the permits by at most the requests dropped while they waited |
| `Workers.TimeOutKeepsPermits` | src/server/web.rs:768-780 | A timeout frees no permit |
| `Workers.EarlyReleaseBreaksTheBound` | src/server/web.rs:752-781 | That bound is reached: whatever the number of permits, n releases before the answer put n more commands than permits into the queue |
| `Workers.DrainEmpties` | src/db/worker.rs:43-84 | A worker left to itself answers all it has and touches no other |
| `Workers.ShutdownIsLostIffFull` | src/db/engine.rs:432-446 | A worker stops after shutdown exactly when its queue was not full |
| `Authorization.HoldersAgree` | src/catalog/auth/authorize.rs:87-120 | Privileges found by role name and by role id agree when role names are unique and the role exists |
| `Authorization.ReadableIsVisible` | src/mysql_compat.rs:1173-1211 | What a user may read, the metadata views show |
| `Authorization.MayActIff` | src/catalog/auth/authorize.rs:43-69 | For every action an active user may act exactly as an admin or by a privilege for that very action, its own or of a role it is a member of, on the relation or, for reading only, on its schema |
| `Authorization.VisibleIffReadable` | src/catalog/auth/authorize.rs:43-69 | For an active user a relation is shown exactly when reading it is authorized, in accounts with unique names and existing roles |
| `Authorization.ShownButUnreadableIff` | src/mysql_compat.rs:1173-1211 | Without that, a relation is shown but not readable exactly when no privilege is held by role name and one is held through a membership in a missing role |
| `AccessRuns.RunKeepsSound` | src/catalog/mutation/user_role.rs:3-113 | Creating and dropping users and roles, granting and revoking, and creating, dropping, expiring and repairing relations keep names unique and memberships and privileges without dangling ends |
| `AccessRuns.BootstrapIsSound` | src/catalog/bootstrap.rs:54-90 | The accounts of a new catalog are so |
| `AccessRuns.AccountsChange` | src/catalog/mutation/drop.rs:60-145 | One step makes a user or role only by its creation under a name nobody has, and takes one only by its drop: never the default admin or a built-in role, nor a role in use without CASCADE |
| `AccessRuns.HeldIffGiven` | src/catalog/mutation/grant.rs:3-76 | Over any run a privilege is held exactly when it was given at some point, to an account and on a relation of a user schema that existed, and since then was neither revoked nor lost its holder |
| `AccessRuns.MemberIffJoined` | src/catalog/mutation/grant.rs:78-130 | Over any run a user is a member of a role exactly when it was put in, or created as a reader, and since then was not taken out while user and role stayed |
| `AccessRuns.RelationGoesIff` | src/catalog/mutation/drop.rs:22-58 | One step takes a relation exactly by its own drop, with its parent, or as the partition that expires |
| `AccessRuns.VisibleIffReadableInEveryRun` | src/catalog/auth/authorize.rs:43-120 | In every state of every run, for an active user a relation is shown exactly when reading it is authorized |
| `AccessRuns.IdReturnsIff` | src/catalog/partition/repair.rs:70-171 | One step brings an id that was handed out before back exactly if it repairs the partition that had it |
| `AccessRuns.RelationComesIff` | src/catalog/partition/create.rs:128-210 | One step makes a relation exactly by its creation, as a new partition of a relation of a user schema, or by repair; rs_partition rows come only with a new partition and go only with the parent |
| `AccessRuns.IdsReturnOnlyByRepair` | src/catalog/partition/repair.rs:70-171 | Over any run an id that is gone is back later only through the repair of the partition that had it |
| `AccessRuns.GoneStaysGone` | src/catalog/oid.rs:3-17 | The id of a dropped relation that was no partition never comes back |
| `AccessRuns.NewRelationStartsBare` | src/catalog/lookup.rs:606-650 | No privilege is waiting for a relation or partition about to be created |
| `AccessRuns.RepairedPartitionStartsBare` | src/catalog/mutation/grant.rs:218-247 | Nor for a partition repaired under its old id, as GRANT refuses the reserved schemas |
| `AccessRuns.PrivilegesNeverGoStale` | src/catalog/auth/authorize.rs:87-120 | A privilege on an existing relation was there from the start or granted while that same relation existed, and the relation has existed ever since |

## Left out

- Text is ASCII: UTF-8 sequences count as several characters, and Unicode case folding and white space are not modelled.
- Object ids, epochs and counts are unbounded integers; attnums are held to 32 bits only where key lists are rendered and parsed.
- DuckDB statements in ALTER TABLE fail only for a missing or clashing column or the last column of a table; failures of any other kind are the arbitrary `Fail` action of the catalog kernel, where they roll back.
- CommitsAreOk: a checksum refresh that itself fails after a status change was committed, and a panic inside a command, are not modelled.
- NewTable: the text of a default is not compared with DuckDB's, only its presence; UNIQUE, CHECK and FOREIGN KEY make no difference to the columns.
- DuckReports: DuckDB is taken to report the types the catalog prints unchanged but for REAL, which it calls FLOAT, and DECIMAL, which gets precision 18 and scale 3; for new partitions and restored tables alike.
- NewPartition: indexes of the new partition are not modelled.
- UnionColumns: which different types DuckDB unites, and to what, is a parameter; equal types stay as they are.
- NewKeyRow: one key list stands for a row of rs_constraint or rs_index; constraint kinds, names and expressions are not modelled.
- Dropped: runs of table statements hold no views, indexes as relations, foreign keys between tables, or expired and repaired partitions; a DROP TABLE refused for their sake is left out of the run.
- RestoreTable: key constraints, indexes, views, macros, the manifest and files are not modelled; values are converted by an arbitrary function that keeps a value of equal type.
- Restored names agree up to case only, because SET DATA TYPE stores the name as the statement spells it.
- Startup: bootstrapping a missing catalog, timestamps and error texts; a failed start is one outcome without a state, although the program leaves what it changed.
- IndexPresent: reading the column names of a partitioned index, which can fail for a missing attnum, is not modelled.
- EmptyEntryReads: takes a table with an active column and column types whose texts have matching brackets, as types DuckDB reports have.
- StartupSettles: takes column types that are in rs_type and partitions that are ordinary tables, as the catalog's own operations write them.
- DropKeepsIntegrityIff: takes catalogs whose constraint edges go to the tables of the constraint and whose columns have built-in or registered types, as the catalog's own operations write them.
- DropObject: DuckDB's CASCADE is taken to reach no view, as DuckDB does not tie views to tables by default; what it refuses to drop is a parameter; the DuckDB indexes that go are not modelled.
- RunsAreCleanAndSound: a statement is one catalog write and one physical write; of the catalog rows of the tables only rs_column is spelled out (`HashedBytesDetermineColumns`), the others are an arbitrary function of the tables.
- The order in which queries list rows is a parameter; the results hold for every order.
- Checksum cells are taken as rendered; `checksum_value_to_string` is not modelled.
- Floats in literals are opaque runs of digits, `.` and a leading `-`.
- VectorBatch: vector search, index building and rebuilding, error texts, and the checksum refresh that follows the count.
- SnapshotGate: commands that do not take the gate are taken not to write, logins excepted; whether credentials check out is a parameter; a panic releases the gate like a normal end.
- Workers: the round-robin choice of a read worker, joining threads, and clocks (a timeout may happen at any moment).
- AccessRuns: passwords, GRANT parsing, system and schema actions, and the rows of rs_user a status change writes.
- Partition routing, the choice of partitions to expire, HTTP, the MySQL protocol, file import, configuration: input and output around this core.
