# SynthGen Core: models and proofs

This project models the algorithms of SynthGen Core, a small database kernel for synthetic time
series, and proves what they keep and compute. `dafny verify dfyconfig.toml` checks all of it.

What is modelled, with the main results:

- **Metadata files** (`MetadataText`, `MetadataRoundTrip`, `MetadataConverse`, `MetadataDefaults`,
  `MetadataParser`): the hand-written printer, the cursor parser and the array splitter. Printing and
  parsing undo each other exactly for tables whose version and snapshot strings have nested square
  brackets.
- **Object store** (`ObjectStore`, `ObjectStoreScans`, `ObjectStoreLosses`, `ObjectStoreStops`,
  `ObjectStoreBackend`): the part-number allocator and the metadata files as a step machine with
  crashes between any two steps. Exactly over table ids that are safe no recorded version is ever lost;
  a scan returns every row that was appended, each append in one piece, and what failed appends left; a
  reload that stopped loses rows exactly when an unread file records a part number that is drawn again.
- **Checkpoint store** (`Paths`, `Directories`, `ModelStorage`, `ModelStorageLayer`,
  `CheckpointProtocol`): a cache of five entries, list and map over heap nodes, that agrees with the
  disk over every run exactly when names correspond to files, directories in their way included; a load
  gives the data of the last write that succeeded; and the pending-then-rename protocol, under which no
  checkpoint is ever a mixture of two writes, with the exact names whose leftovers recovery removes.
- **Drift statistic** (`DriftDetector`): the merge walk gives the least bound of all gaps between two
  empirical distribution functions and of the corners at shared values, and the supremum of the gaps
  exactly when no corner sticks out.
- **Inter-row filter** (`InterRowFilter`, `InterRowEngine`): the greedy mask keeps exactly the rows
  that obey the constraints against the last row kept, and is unique and idempotent; splitting rows
  into any number of batches changes nothing exactly when the carried states survive.
- **Audit log** (`AuditLog`): tamper evidence and fork freedom as reductions to collisions between
  texts that were hashed for the records at hand, for an arbitrary hash with 64-character digests.
- **Window aggregation** (`AggregateWindows`, `AggregateEngine`): greedy windows are a minimum cover of
  the timestamps, their aggregates recombine, the windows reported are exactly those out of bounds, and
  the exclusion rate is bounded.
- **Version chain, compaction and time travel** (`VersionChain`, `ModelVersionChain`, `Compaction`,
  `GcCompactor`, `TimeTravel`): an append-only forest of versions, listings in reverse order of
  creation, merges that sum up exactly what nothing protects, and queries that fall back to the newest
  checkpoint that loads.
- **SynthLang** (`Lexing`, `Spellings`, `Lexer`, `SynthLang`, `Parser`, `SynthLangProperties`,
  `SynthLangRefusals`, `SynthLangPrinting`, `SourceText`): a lossless lexer with exactly one token list
  per source, a parser with error recovery that always ends, and program texts that are read back as
  the programs they were written from.
- **Ranges** (`Ranges`, `RangeExtractor`, `ValueRangeValidator`, `Schema`): the interval that sampling
  uses and the rules that validation checks, which agree up to strict bounds.

Code that changes things step by step is modelled by classes and loops, each proved against a
function or relation; the theorems are about those. Numbers of type `double` are exact reals.
Clocks, fresh identifiers, directory order and the outcome of file operations are inputs. Columns
are sequences of chunks. The file system of the checkpoint store is a tree of files and directories,
where names with slashes and dot segments are resolved. The constants `MODELS` and `TABLES` have no
value: they stand for any directory.

Places where the code does not do what its comments or names promise:

- `metadata.cpp` captures arrays by counting brackets without regard to quotes, so a stray bracket in a
  version or snapshot string changes what is read back, and a table id with one can lose rows
  (`TableRoundTrip`, `SafeIdsExactly`). Ids that lead elsewhere than one directory down, or two to one
  directory, lose rows too.
- `object_store_backend.cpp` ignores a reload that stopped, after which part numbers are used again
  (`StoppedReloadOverwrites`).
- `drift_detector.cpp` says that its walk gives the sup-norm distance; with unequal ties it can exceed
  it (`StatisticIsSupremumIff`).
- `inter_row_engine.cpp` drops the carried state when a batch keeps no row (`BatchesAreOneRun`), and
  turns nulls into values (`Rebuilt`).
- `audit_log.cpp` never checks the first record (`FirstRecordUnchecked`), and joins fields by
  separators that they may contain (`UnambiguousWithoutBars`, `MetadataIsAmbiguous`).
- `parser.cpp` declares a type before its definition is accepted (`RefersBackExactly`), and looks for
  the minus sign of a comparison behind the number (`SignedComparisonRejected`).
- `value_range_validator.cpp` counts failures under the name `rows_failed` (`FailuresCountRows`).
- `range_extractor.cpp` reads strict bounds as closed ones (`IntervalsAgreeWithRules`).
- `model_storage_layer.cpp` leaves a stale cache entry when a save fails after truncating its file
  (`TornSaveRun`), keeps one file under two keys when names differ by a slash and takes a directory for
  the file it replaced (`LoadAgreesWithDisk`), and its recovery passes over leftovers of some names
  (`RemovableExactly`) and over directories that it cannot list.

## Model

| member | source | states |
|---|---|---|
| MetadataConverse.TableRoundTrip | src/storage/metadata.cpp:18-277 | for every table: parsing its printed text gives the same table back if and only if the square brackets in its version strings, read in order, are nested, and so are those in its snapshot strings; `schema_json` is free |
| MetadataRoundTrip.SafeTableRoundTrip | src/storage/metadata.cpp:56-277 | the direction that callers need: bracket-safe tables survive printing and parsing |
| MetadataConverse.UnsafeTable | src/storage/metadata.cpp:146-168 | the other direction: a bracket that is not nested in a version or snapshot string always changes the table that is read back |
| MetadataConverse.StopsInObjects | src/storage/metadata.cpp:151-168 | an array capture that ends too early leaves the parser inside a string and the splitter with fewer objects than were printed |
| MetadataConverse.StuckEnds | src/storage/metadata.cpp:84-103 | once the parser stands inside a string, no later member is stored |
| MetadataConverse.CapturesList | src/storage/metadata.cpp:151-168 | the value read for an array is what the bracket count captures, quoted brackets included |
| MetadataRoundTrip.ReadsEscaped | src/storage/metadata.cpp:18-32 | reading a quoted string undoes the escaping, for every string and whatever follows it |
| MetadataRoundTrip.CapturesNested | src/storage/metadata.cpp:151-168 | the bracket count captures exactly a text whose own brackets are nested |
| MetadataRoundTrip.ReadsObject | src/storage/metadata.cpp:84-103 | a printed object is read back as its members, the last of equal keys winning, when its arrays are nested |
| MetadataRoundTrip.SplitsList | src/storage/metadata.cpp:212-252 | splitting a printed array gives the printed objects, in order, with quotes, backslashes and braces inside strings |
| MetadataRoundTrip.VersionRoundTrip | src/storage/metadata.cpp:34-198 | a version object alone is read back whatever its strings hold: only the enclosing array is sensitive to brackets |
| MetadataRoundTrip.SnapshotRoundTrip | src/storage/metadata.cpp:46-209 | a snapshot object alone is read back whatever its strings hold |
| MetadataRoundTrip.VersionsListRoundTrip | src/storage/metadata.cpp:212-269 | printing and splitting a list of versions gives the list back |
| MetadataRoundTrip.SnapshotsListRoundTrip | src/storage/metadata.cpp:212-275 | printing and splitting a list of snapshots gives the list back |
| MetadataRoundTrip.SafeTableParses | src/storage/metadata.cpp:84-103 | the whole printed table parses as an object with all six members |
| MetadataText.EscapeChar | src/storage/metadata.cpp:21-30 | an escaped character is itself or a backslash pair that unescapes to it and holds no bracket or brace |
| MetadataParser.EscapeJson | src/storage/metadata.cpp:18-32 | the loop computes the escaped text of the round trip |
| MetadataParser.JsonParser.SkipBlanks | src/storage/metadata.cpp:112-118 | the cursor skips exactly the white space |
| MetadataParser.JsonParser.Expect | src/storage/metadata.cpp:119-122 | takes the character if it is there and otherwise stays |
| MetadataParser.JsonParser.ReadString | src/storage/metadata.cpp:123-145 | the loop over the cursor reads the string of the specification and leaves the same rest |
| MetadataParser.JsonParser.ReadBalanced | src/storage/metadata.cpp:151-168 | the capture loop agrees with the bracket count on the rest of the text |
| MetadataParser.JsonParser.ReadScalar | src/storage/metadata.cpp:169-180 | a bare value ends at a separator or white space |
| MetadataParser.JsonParser.ReadValue | src/storage/metadata.cpp:146-181 | the three forms of a value agree with the specification, failures included |
| MetadataParser.JsonParser.ReadObject | src/storage/metadata.cpp:84-103 | the member loop stores what the specification stores, also when it fails half way |
| MetadataParser.ParseJsonArray | src/storage/metadata.cpp:212-252 | the string-aware loop yields the objects of the specification on every text |
| MetadataParser.SerializeTableMetadata | src/storage/metadata.cpp:56-77 | the printer loops produce the text of the round trip |
| MetadataParser.SerializeVersionMeta | src/storage/metadata.cpp:34-44 | prints a version as its five members |
| MetadataParser.SerializeSnapshotRef | src/storage/metadata.cpp:46-54 | prints a snapshot as its three members |
| MetadataParser.ParseTableMetadata | src/storage/metadata.cpp:254-277 | parses a table as the specification does, on every text; a number that does not convert is an error |
| MetadataParser.ParseVersionMeta | src/storage/metadata.cpp:187-198 | parses a version as the specification does, with defaults for missing members |
| MetadataParser.ParseSnapshotRef | src/storage/metadata.cpp:200-209 | parses a snapshot as the specification does |
| MetadataDefaults.MissingMembers | src/storage/metadata.cpp:187-277 | members that are missing read as empty texts, zeros and empty lists |
| Common.StollPrintInt | src/storage/metadata.cpp:194-195 | reading a printed 64-bit number gives the number back |
| ObjectStore.RunKeeps | src/storage/metadata.cpp:350-471 | over every run of register, append, crash at any point and reopen that registers only safe ids: recorded versions have distinct part numbers, all below the next one, and each has its complete file |
| ObjectStore.StepKeeps | src/storage/metadata.cpp:374-471 | each single step keeps that invariant |
| ObjectStore.ReopenKeeps | src/storage/metadata.cpp:424-471 | reloading recovers a next part number above every recorded one |
| ObjectStore.StepKeepsFile | src/storage/object_store_backend.cpp:223-256 | no step overwrites the file of a recorded version |
| ObjectStore.Durable | src/storage/object_store_backend.cpp:223-256 | a version whose metadata has reached the disk stays recorded with the same file over any later crashes |
| ObjectStore.EarlierRoundTrip | src/storage/metadata.cpp:379-471 | every state that a flush may leave on disk is read back as it was |
| ObjectStore.PartOfVersionId | src/storage/metadata.cpp:459-466 | the part number written into a version id is the one read from it |
| ObjectStore.RunKeepsExact | src/storage/object_store_backend.cpp:223-335 | when every append completes, the part files are exactly those of the recorded versions |
| ObjectStore.ScanCountsRows | src/storage/object_store_backend.cpp:258-335 | when every append completes, a scan holds as many rows as the versions of the table count together, in any directory order |
| ObjectStore.ScanExceeds | src/storage/object_store_backend.cpp:258-326 | in every state reached over safe ids, whatever failed or crashed, a scan holds the rows that the versions count and exactly those of the part files that no version records |
| ObjectStoreScans.ScanReturnsAll | src/storage/object_store_backend.cpp:223-325 | between operations, when every append completed, a scan returns every append to the table once and nothing else, each with its rows together and in order; so it has exactly the rows appended, each as often as it was |
| ObjectStoreScans.ScanReturnsAppends | src/storage/object_store_backend.cpp:223-325 | in every state reached over safe ids, whatever failed or crashed, a scan returns for each file in the listing the rows of the append that its version comes from, or what is in a file that no version records |
| ObjectStoreScans.VersionsComeFromAppends | src/storage/object_store_backend.cpp:223-256 | the versions of a table come from appends to it, in the order of the appends, and their files hold those rows; from all of them when every append completed |
| ObjectStoreScans.TablesAreAsRegistered | src/storage/metadata.cpp:312-360 | over every run each table has the schema text, time and hash of its registration, and each version the time at which it was recorded and the hash of its table |
| ObjectStoreScans.PrintedHex | src/storage/metadata.cpp:294-296 | the hash is printed in base sixteen without leading zeros |
| ObjectStoreLosses.SafeIdsExactly | src/storage/object_store_backend.cpp:175-256 | no run that registers only these ids, of those whose files can be written, ever loses a recorded version, if and only if the reload finds the directory of each, its brackets are nested, and no two mean one directory |
| ObjectStoreLosses.NeverLost | src/storage/object_store_backend.cpp:175-256 | over safe ids no version on disk is forgotten and no part file reused |
| ObjectStoreLosses.UnsafeIdsLose | src/storage/object_store_backend.cpp:175-256 | for every other set of ids there is a run that loses a version: an id the reload does not find, one with unnested brackets, or two ids of one directory |
| ObjectStoreLosses.PlainIdsAreClear | src/storage/metadata.cpp:327-333 | the files of every plain id can be written: the way to its directory makes no directory of them |
| ObjectStoreStops.StoppedReloadOverwrites | src/storage/object_store_backend.cpp:175-256 | after a reload that stopped behind any number of files, whose error the constructor ignores, later calls can overwrite the file of a version on disk if and only if a file that was not read records a part number not below the next one computed from those that were |
| ObjectStoreStops.UnreadableFileLoses | src/storage/object_store_backend.cpp:178-183 | so a reload that stops at the first file lets every version on disk be overwritten |
| ObjectStoreStops.BelowIsKept | src/storage/object_store_backend.cpp:223-256 | without another reload no call touches a recorded file whose part number is below the next one |
| ObjectStoreStops.LastFileCounts | src/storage/metadata.cpp:436-453 | a reload loads a table exactly if a file read holds one of its id, and of several the last counts |
| ObjectStore.PlainIdsAreSafe | src/storage/metadata.cpp:327-470 | ids without slashes are safe exactly when they are plain names with nested brackets |
| ObjectStoreBackend.ReachesRun | src/storage/object_store_backend.cpp:196-256 | what the methods below do is a run of the step machine |
| ObjectStoreBackend.ReachedFilesReload | src/storage/metadata.cpp:424-471 | the metadata files of every state reached over safe ids parse, are not empty and carry part numbers that have a successor |
| ObjectStoreBackend.CompleteReload | src/storage/metadata.cpp:436-469 | reading every listed file, in any order, gives the tables under the ids written in them and a next part number above every one read |
| ObjectStoreBackend.MaxPart | src/storage/metadata.cpp:457-467 | the loop finds the largest part number recorded, skipping ids without one |
| ObjectStoreBackend.Backend.Flush | src/storage/metadata.cpp:379-422 | replaces the metadata files one by one; success means that each directory holds its table, or another of the same directory, so with directories of their own all tables are on disk; a failure leaves a reachable state |
| ObjectStoreBackend.Backend.RegisterTable | src/storage/object_store_backend.cpp:196-214 | refuses a known id, otherwise adds an empty table and flushes; its effect is a run of the machine |
| ObjectStoreBackend.Backend.Append | src/storage/object_store_backend.cpp:223-256 | draws a part number, writes the file, records the version and flushes; each way to fail leaves the stated state, and the run of the machine begins with an append of these rows |
| ObjectStoreBackend.Backend.Reload | src/storage/metadata.cpp:424-471 | reads the listed files in order up to one that cannot be opened or parsed, skips empty ones, and keeps what was read before; of two files with one table id the later stays |
| ObjectStoreBackend.Backend.Scan | src/storage/object_store_backend.cpp:258-325 | concatenates the part files in directory order; `ScanReturnsAll` says which rows that gives |
| ModelStorage.LoadAgreesWithDisk | src/storage/model/model_storage_layer.cpp:22-163 | from every state of the disk and over every run of saves, atomic writes that fail in any phase, loads and outside deletions with these names and no torn save, loading returns what an uncached read returns, if and only if the names correspond: of the files that can be there at all, none stands where a write makes a directory, one file has one key, and one key means one file |
| ModelStorage.PlainNamesAgree | src/storage/model/model_storage_layer.cpp:17-35 | plain model names and versions without a slash correspond, so for them loads always agree with the disk |
| ModelStorage.TrailingSlashDisagrees | src/storage/model/model_storage_layer.cpp:22-35 | a model name and the same name with a slash behind it are one file under two keys, so loads can disagree |
| ModelStorage.NestedModelDisagrees | src/storage/model/model_storage_layer.cpp:60-121 | a model named like the checkpoint file of another makes a directory of that file once it was deleted, and the existence test then serves the cached value for the directory |
| ModelStorage.SavableSomewhere | src/storage/model/model_storage_layer.cpp:66-81 | the names under which a save can be made on some disk: the file stands neither on its own way nor where its model directory needs a directory |
| ModelStorage.ApplySane | src/storage/model/model_storage_layer.cpp:60-248 | no operation leaves anything outside a directory, or a file where a directory stands |
| Directories.MakeDirs | src/storage/model/model_storage_layer.cpp:66-73 | creates directories from the root down and stops where a file stands |
| ModelStorage.Disagreement | src/storage/model/model_storage_layer.cpp:101-163 | names that do not correspond give a disk and a run of at most three operations after which a load is wrong |
| ModelStorage.RunKeeps | src/storage/model/model_storage_layer.cpp:37-163 | over those runs, with corresponding names, the cache holds at most five distinct keys, every cached value is the content of the file of one of its names, if that is there, and no directory stands in its place |
| ModelStorage.TornSaveRun | src/storage/model/model_storage_layer.cpp:75-88 | wherever a save can be made, it and a torn save of the same checkpoint are a run after which the load is wrong |
| ModelStorage.LoadsLastWrite | src/storage/model/model_storage_layer.cpp:60-248 | over every run, torn saves included, a load of a checkpoint that can be reached gives the data of the last save or atomic write to its file that succeeded, under whatever of the corresponding names, if nothing tore or deleted the file since |
| ModelStorage.LoadsOldFile | src/storage/model/model_storage_layer.cpp:101-163 | and a file that nothing wrote or deleted gives what it held at the start |
| ModelStorage.AtomicStores | src/storage/model/model_storage_layer.cpp:189-248 | an atomic write that succeeds leaves its data in the file, no pending file and every other file as it was; the pair stands first in the cache and the next load gives the data |
| ModelStorage.SaveStores | src/storage/model/model_storage_layer.cpp:60-99 | a save that succeeds leaves its data in the file and every other file as it was; the pair stands first in the cache and the next load gives the data |
| ModelStorage.UncommittedSpares | src/storage/model/model_storage_layer.cpp:189-232 | an atomic write that does not get to its rename touches no file but the pending one, and not the cache |
| ModelStorage.LoadRemembers | src/storage/model/model_storage_layer.cpp:106-163 | what a load serves stands first in the cache afterwards |
| ModelStorage.RunOrders | src/storage/model/model_storage_layer.cpp:37-58 | over every run the keys stand in order of last use, and are the five last used ones while none was thrown out as stale |
| ModelStorage.LoadIsRead | src/storage/model/model_storage_layer.cpp:101-163 | one load returns what an uncached read returns, missing directories and directories in place of files included, and keeps the cache in agreement |
| ModelStorage.UpdateKeeps | src/storage/model/model_storage_layer.cpp:37-58 | an update keeps the keys distinct and at most five, and puts the new pair first |
| ModelStorageLayer.StorageLayer.UpdateCache | src/storage/model/model_storage_layer.cpp:37-58 | list and map of heap entries change together as the cache on values does: same distinct keys, at most five |
| ModelStorageLayer.StorageLayer.MoveToFront | src/storage/model/model_storage_layer.cpp:41-44 | splicing keeps the same entries and puts the used one first |
| ModelStorageLayer.StorageLayer.CreateModelDir | src/storage/model/model_storage_layer.cpp:66-73 | creates the directories for a model, up to a file in the way or a failure of the system |
| ModelStorageLayer.StorageLayer.SaveCheckpoint | src/storage/model/model_storage_layer.cpp:60-99 | moves the store as the operation on values, for each way of failing; it succeeds exactly when nothing fails and no file or directory is in the way, and then the file holds the data and no other file has changed |
| ModelStorageLayer.StorageLayer.AtomicWrite | src/storage/model/model_storage_layer.cpp:189-248 | moves the store as the operation on values, for a failure in either phase; it succeeds exactly when nothing fails and nothing is in the way, and then the file holds the data, the pending file is gone and no other file has changed |
| ModelStorageLayer.StorageLayer.LoadModel | src/storage/model/model_storage_layer.cpp:101-163 | returns and leaves behind what the load on values does, hit, stale entry, missing file and unreadable file alike |
| ModelStorageLayer.StorageLayer.RecoverInterrupted | src/storage/model/model_storage_layer.cpp:250-289 | removes only pending files in directories of models that can be listed, keeps every other file, and succeeds exactly when none of these is left |
| CheckpointProtocol.CheckpointsAreCompleted | src/storage/model/model_storage_layer.cpp:189-289 | at every point of every run with crashes the checkpoint files are exactly those of the completed renames |
| CheckpointProtocol.NeverAMixture | src/storage/model/model_storage_layer.cpp:189-289 | every checkpoint holds its old content or the whole data of one write |
| CheckpointProtocol.AtomicIsRun | src/storage/model/model_storage_layer.cpp:189-248 | an atomic write, however it ends, is a run of the protocol: directories, the pending file, its content, and the rename exactly if it succeeds |
| CheckpointProtocol.RecoveryRemovesPending | src/storage/model/model_storage_layer.cpp:250-289 | after a recovery that ran to its end a pending file is left only in a directory that could not be listed, if the writes had names that recovery finds |
| CheckpointProtocol.CleanedExactly | src/storage/model/model_storage_layer.cpp:189-289 | over every run that writes under these names, crashes where it likes and lets every recovery list all directories, a finished recovery leaves no pending file, if and only if recovery finds the pending file of each name that can have one |
| CheckpointProtocol.WritableSomewhere | src/storage/model/model_storage_layer.cpp:195-214 | the names under which a write can begin on some disk |
| CheckpointProtocol.BeginsWithoutSlash | src/storage/model/model_storage_layer.cpp:195-214 | without a slash in the version a write can begin once its model directory is there and no directory stands at the pending file |
| CheckpointProtocol.RemovableExactly | src/storage/model/model_storage_layer.cpp:260-268 | recovery finds the pending file of a write exactly when the two names lead to a directory directly below models and the version does not end in a slash and is not empty, dot segments and slashes resolved |
| CheckpointProtocol.RemovableWithoutSlashes | src/storage/model/model_storage_layer.cpp:260-268 | for names without slashes: exactly when the model is neither empty nor a dot segment and the version is not empty |
| CheckpointProtocol.OtherNamesStayPending | src/storage/model/model_storage_layer.cpp:250-289 | on every disk on which a write under any other name can begin there is a run after which its pending file survives recovery, though every directory can be listed |
| CheckpointProtocol.PathEnds | src/storage/model/model_storage_layer.cpp:22-30 | a checkpoint is never taken for a pending file, whatever the names |
| ModelStorage.PathKinds | src/storage/model/model_storage_layer.cpp:22-30 | a pending file is never the checkpoint of the same or other names |
| Paths.ResolveFile | src/storage/model/model_storage_layer.cpp:22-30 | a version with its suffix is one file in the directory that its slashes lead to |
| Paths.ResolveNoSlash | src/storage/model/model_storage_layer.cpp:17-20 | a name without a slash leads one directory down exactly when it is neither empty nor a dot segment |
| Paths.TrailingSlash | src/storage/model/model_storage_layer.cpp:17-20 | a slash behind a plain name leads to the same place |
| DriftDetector.StatisticIsLeastBound | src/engine/alignment/drift_detector.cpp:61-123 | the statistic is the least number that bounds all gaps of the two empirical distribution functions and the corner of every shared value |
| DriftDetector.StatisticIsSupremumIff | src/engine/alignment/drift_detector.cpp:61-123 | never below the supremum of the gaps, and equal to it if and only if for every shared value the gap at some sample value reaches the corner of the walk |
| DriftDetector.EqualTiesGiveSupremum | src/engine/alignment/drift_detector.cpp:76-98 | it is the supremum whenever each shared value occurs equally often in both samples |
| DriftDetector.UnequalTiesOvershoot | src/engine/alignment/drift_detector.cpp:93-97 | two samples for which the walk overshoots the supremum |
| DriftDetector.StatisticIsSymmetric | src/engine/alignment/drift_detector.cpp:61-123 | symmetric in the samples and independent of their order, empty samples included |
| DriftDetector.EmptySample | src/engine/alignment/drift_detector.cpp:100-120 | one when one sample is empty, zero when both are |
| DriftDetector.StatisticInUnit | src/engine/alignment/drift_detector.cpp:61-123 | between 0 and 1, also for empty samples |
| DriftDetector.GapsBelowWalk | src/engine/alignment/drift_detector.cpp:80-120 | from any position of the walk on, no gap of the distribution functions exceeds what the walk finds |
| DriftDetector.WalkBounded | src/engine/alignment/drift_detector.cpp:80-120 | the walk finds nothing above a bound of all gaps and corners: between the ends of a run of ties the distance is convex |
| DriftDetector.SortedCopy | src/engine/alignment/drift_detector.cpp:65-68 | sorts a sample without changing the number of times any value occurs |
| DriftDetector.KsStatistic | src/engine/alignment/drift_detector.cpp:61-123 | the merge walk and the two drain loops compute that statistic |
| InterRowFilter.GreedyIsUnique | src/engine/constraint/inter_row_engine.cpp:162-204 | the kept mask is the only mask in which a row is kept exactly when it meets all constraints against the previous kept row or the incoming state |
| InterRowFilter.FilterIsIdempotent | src/engine/constraint/inter_row_engine.cpp:162-204 | filtering the kept rows again keeps all of them |
| InterRowFilter.KeptRowsObey | src/engine/constraint/inter_row_engine.cpp:72-90 | any two kept rows obey a monotone constraint; rows k steps apart differ by less than k times the largest delta; neighbours differ by more than the smallest |
| InterRowFilter.KeptExactly | src/engine/constraint/inter_row_engine.cpp:72-204 | a row is kept if and only if against every value it is compared with, that of the last row kept or the one that came with the batch, it is greater, less, within the largest delta or beyond the smallest one, as its constraint asks |
| InterRowFilter.ObeyingRowsAreKept | src/engine/constraint/inter_row_engine.cpp:72-204 | rows that already obey, each against the one before it, are all kept |
| InterRowFilter.LastStateCounts | src/engine/constraint/inter_row_engine.cpp:142-160 | of several initialised states of a column the last one counts |
| InterRowFilter.BatchesAreOneRun | src/engine/constraint/inter_row_engine.cpp:92-222 | any number of batches, each given the states of the one before, behave as one run over all rows if and only if the states carry: the first row after a batch that kept nothing passes against the last row kept, and the last state is not lost (or there is no constraint) |
| InterRowFilter.TwoBatches | src/engine/constraint/inter_row_engine.cpp:148-222 | two batches behave as one if and only if a row of the first passes against the incoming state and a row of the second against the last row kept, or no row of the first passes and the second is empty or its first row does (or there is no constraint) |
| InterRowFilter.KeepsWhenAnyPasses | src/engine/constraint/inter_row_engine.cpp:162-204 | a batch keeps a row exactly when some row of it passes against the state it starts from |
| InterRowFilter.HandsOver | src/engine/constraint/inter_row_engine.cpp:206-222 | outgoing states carry the last kept row, and nothing at all when none was kept |
| InterRowFilter.DropsState | src/engine/constraint/inter_row_engine.cpp:206-222 | after a batch that keeps nothing the next batch starts without the incoming state |
| InterRowEngine.ComputeMask | src/engine/constraint/inter_row_engine.cpp:156-204 | the loop with one last-kept index per constraint computes the greedy mask and the counters |
| InterRowEngine.CheckRow | src/engine/constraint/inter_row_engine.cpp:164-193 | checks one row against the last kept row or the incoming state |
| InterRowEngine.FlattenNumbers | src/engine/constraint/inter_row_engine.cpp:131-140 | reads a chunked column in row order |
| InterRowEngine.CellAt | src/engine/constraint/inter_row_engine.cpp:242-250 | finds the cell of a row by walking the chunks |
| InterRowEngine.RebuildColumn | src/engine/constraint/inter_row_engine.cpp:231-303 | rebuilds a column from its kept rows as one chunk; nulls come out as what their buffers hold |
| InterRowEngine.Rebuilt | src/engine/constraint/inter_row_engine.cpp:236-251 | what is rebuilt equals the kept cells exactly when none of them is null, and reads the same as numbers |
| InterRowEngine.OutgoingStates | src/engine/constraint/inter_row_engine.cpp:206-222 | the backward search finds the states of the last kept row |
| InterRowEngine.Engine.ValidateConstraints | src/engine/constraint/inter_row_engine.cpp:29-70 | accepts exactly the constraints on numeric columns with positive deltas, when there is an order column, and otherwise names what is wrong with the first bad one |
| InterRowEngine.Engine.ExecuteBatch | src/engine/constraint/inter_row_engine.cpp:92-321 | the whole batch, missing or not, gives what the filter gives on the flattened values that the engine reads, so the chunk layout does not matter; of the kept rows only nulls change |
| AuditLog.TamperEvident | src/storage/audit/audit_log.cpp:17-129 | two verified logs of equal length that end in the same chain hash agree in content and links after the first record and in its chain hash, if and only if no two texts hashed for records at the same place collide |
| AuditLog.LinksAgree | src/storage/audit/audit_log.cpp:17-31 | one link: equal chain hashes give equal content, links and previous hash, or the texts hashed for the two records collide, and never both |
| AuditLog.FirstRecordUnchecked | src/storage/audit/audit_log.cpp:107-127 | what verification does not protect: another first record verifies exactly when there is no second or it has the same chain hash, and records can be cut off the front |
| AuditLog.ContentLayout | src/storage/audit/audit_log.cpp:17-26 | the hashed text holds the operation, the actor and the time in this order behind bars, and then the entries of the metadata |
| AuditLog.ContentGivesFields | src/storage/audit/audit_log.cpp:17-26 | equal content means equal fields when operation and actor hold no bar, and equal metadata when keys hold no equals sign and values no semicolon |
| AuditLog.UnambiguousWithoutBars | src/storage/audit/audit_log.cpp:17-26 | given time and metadata, the content of a record fixes its operation and actor if and only if neither holds a bar |
| AuditLog.Twin | src/storage/audit/audit_log.cpp:17-26 | every record with a bar in its operation or actor has a twin with equal content, time and metadata and another operation |
| AuditLog.MetadataIsAmbiguous | src/storage/audit/audit_log.cpp:22-24 | a map of metadata is the only one written as its text if and only if it is empty or has one entry with no equals sign in key and value |
| AuditLog.SeparableIsInjective | src/storage/audit/audit_log.cpp:22-24 | among maps without equals signs in keys and semicolons in values the text fixes the map |
| AuditLog.ForkCollides | src/storage/audit/audit_log.cpp:61-98 | two records of a built log with the same previous hash: the chain inputs of some pair of records, the same distance apart and not after them, collide, by descent to the one-character hash of the first record |
| AuditLog.ReportedForkCollides | src/storage/audit/audit_log.cpp:169-190 | whatever fork detection reports on a built log comes with two of its records whose chain inputs collide |
| AuditLog.IdsAreOfRecords | src/storage/audit/audit_log.cpp:174-187 | a fork names the identifiers of exactly the records with its previous hash, in their order |
| AuditLog.ReportAgreesWithVerification | src/storage/audit/audit_log.cpp:131-167 | the daily report has no broken links exactly when the chain verifies, and names exactly the records with a broken link |
| AuditLog.Log.CreateGenesis | src/storage/audit/audit_log.cpp:33-59 | creates the first record once; the log stays built |
| AuditLog.Log.Append | src/storage/audit/audit_log.cpp:61-98 | adds one linked record, changes none, and refuses without a first record or an operation |
| AuditLog.Log.VerifyChain | src/storage/audit/audit_log.cpp:100-129 | true exactly for verified chains, so for every log built by the two methods above |
| AuditLog.Log.DailyVerification | src/storage/audit/audit_log.cpp:131-167 | counts the records and lists the broken links, once per failed check, on every record sequence |
| AuditLog.Log.DetectForks | src/storage/audit/audit_log.cpp:169-190 | reports exactly the groups of more than one record with the same previous hash, each once |
| AggregateWindows.WindowsAreMinimumCover | src/engine/constraint/aggregate_engine.cpp:50-85 | for a positive interval and sorted timestamps the windows are a cover by half-open intervals of that length with the fewest intervals |
| AggregateWindows.WindowsAreFewest | src/engine/constraint/aggregate_engine.cpp:50-85 | no cover has fewer intervals than there are windows, sorted input or not |
| AggregateWindows.StartsApart | src/engine/constraint/aggregate_engine.cpp:57-75 | starts of windows k apart differ by at least k intervals, sorted input or not |
| AggregateWindows.WindowsPartition | src/engine/constraint/aggregate_engine.cpp:50-85 | for a positive interval the windows are non-empty consecutive row ranges that partition the batch, and only the last is partial |
| AggregateWindows.FirstWindowEmptyIff | src/engine/constraint/aggregate_engine.cpp:57-75 | the first window is empty if and only if the interval is not positive |
| AggregateWindows.WindowsRecombine | src/engine/constraint/aggregate_engine.cpp:88-181 | sums, counts, minima and maxima of the windows combine to those of the column, and averages weighted by the rows of their windows to its sum |
| AggregateEngine.EngineRecombines | src/engine/constraint/aggregate_engine.cpp:88-181 | the same for the values that the engine computes from its tables |
| AggregateEngine.WindowValue | src/engine/constraint/aggregate_engine.cpp:93-137 | every window of a numeric column has a value, the aggregate of its slice of the column |
| AggregateEngine.ExclusionRateBound | src/engine/constraint/aggregate_engine.cpp:201-210 | the exclusion rate is at most the share of violated windows, hence at most 1, with equality exactly when no window is violated or the windows divide the rows |
| AggregateEngine.PhaseTwoBounded | src/engine/constraint/aggregate_engine.cpp:217-270 | violated windows are reported once each with rate 1, and are among those counted |
| AggregateEngine.ReportsViolations | src/engine/constraint/aggregate_engine.cpp:228-264 | phase two reports exactly the windows of constraints with a positive interval whose value exists and lies below the minimum or above the maximum, in order, each with the name of its constraint, and lists exactly the windows that have a value |
| AggregateEngine.NothingViolated | src/engine/constraint/aggregate_engine.cpp:183-264 | when every value lies within its bounds nothing is violated and the rate is zero |
| AggregateEngine.CountsAllWindows | src/engine/constraint/aggregate_engine.cpp:228-236 | the total counts every window of every constraint with a positive interval once |
| AggregateEngine.EvaluatedWhen | src/engine/constraint/aggregate_engine.cpp:93-137 | a window has no value exactly when it is empty or no column has the name, in this order, and a column without numbers gives zero |
| AggregateEngine.KahanSum | src/engine/constraint/aggregate_engine.cpp:143-150 | the compensated loop gives the plain sum over the reals |
| AggregateEngine.Engine.ComputeWindows | src/engine/constraint/aggregate_engine.cpp:27-86 | the loop cuts the order column into the windows above, for any interval |
| AggregateEngine.Engine.ComputeAggregate | src/engine/constraint/aggregate_engine.cpp:88-181 | the aggregate of a window, with its two errors and the empty-column default |
| AggregateEngine.Engine.ExecutePhaseTwo | src/engine/constraint/aggregate_engine.cpp:217-270 | judges every window under every constraint with a positive interval and passes over the failing ones |
| AggregateEngine.Engine.Execute | src/engine/constraint/aggregate_engine.cpp:183-215 | the reported rate is the total above and obeys its bound |
| VersionChain.CreateKeeps | src/storage/version/model_version_chain.cpp:56-134 | under a fresh identifier creation fails only for a bad model or parent, keeps the forest and changes no stored version; the new version has the model, parent, time and details it was asked for, and a default creator |
| VersionChain.WalkEnds | src/storage/version/model_version_chain.cpp:40-54 | every parent walk ends at a root, through earlier versions of the same model |
| VersionChain.FreshIsAcyclic | src/storage/version/model_version_chain.cpp:40-54 | a fresh id never closes a cycle |
| VersionChain.ReusedIdOverwrites | src/storage/version/model_version_chain.cpp:122-124 | with an id already in use the stored version is lost unless it is equal |
| VersionChain.ListsAll | src/storage/version/model_version_chain.cpp:156-173 | before sorting, a listing holds every version of the model once, and no other |
| VersionChain.ListingIsNewest | src/storage/version/model_version_chain.cpp:175-184 | whatever a limit leaves out is no newer than anything listed |
| VersionChain.RunHolds | src/storage/version/model_version_chain.cpp:56-134 | over every run of creations with new identifiers the chain holds exactly the accepted ones, as they were asked for, and lists those of each model in the order of creation |
| VersionChain.ListingIsReverse | src/storage/version/model_version_chain.cpp:156-191 | with increasing times a listing is the reverse of the order of creation, cut at the limit, so the version created last is listed first |
| ModelVersionChain.ModelVersionChain.HasCycle | src/storage/version/model_version_chain.cpp:40-54 | terminates and decides on every map: the walk from the parent meets the new id, or never ends |
| ModelVersionChain.ModelVersionChain.CreateVersion | src/storage/version/model_version_chain.cpp:56-134 | moves the two maps as the creation on values does |
| ModelVersionChain.ModelVersionChain.ListVersions | src/storage/version/model_version_chain.cpp:156-191 | a newest-first order of all versions of the model, cut at the limit; a negative limit throws for a known model |
| ModelVersionChain.Sorted | src/storage/version/model_version_chain.cpp:175-179 | an ordered arrangement of the same versions |
| Compaction.RunKeeps | src/storage/version/model_version_chain.cpp:40-205 | over every run of create, modify and compact with fresh ids each parent is empty or an earlier stored version of the same model |
| Compaction.NothingChanges | src/storage/version/model_version_chain.cpp:122-205 | over every run no stored version changes or disappears, and listings keep their order |
| Compaction.RunWalksEnd | src/storage/version/model_version_chain.cpp:40-54 | over every run each parent walk ends at a root and passes only stored versions of one model |
| Compaction.CompactMerges | src/storage/gc/gc_compactor.cpp:15-114 | compaction under a fresh id never fails; it adds nothing, or exactly one version with the row sum, lowest fidelity, merged metadata and oldest parent of the unprotected versions |
| Compaction.CompactSumsModel | src/storage/gc/gc_compactor.cpp:38-114 | within the listing limit rows and fidelity are those of all unprotected versions of the model, however equal times were sorted |
| Compaction.FreeRowsOfAnyOrder | src/storage/gc/gc_compactor.cpp:184-191 | the row sum does not depend on the order of the versions |
| Compaction.LastValueWins | src/storage/gc/gc_compactor.cpp:187-190 | merged metadata has every key, with the value of the last version that has it |
| Compaction.LowestIsLeast | src/storage/gc/gc_compactor.cpp:179-185 | the merged fidelity is the least one and is one of them |
| Compaction.ShieldedStay | src/storage/gc/gc_compactor.cpp:60-77 | merged is exactly what no reference and no anchor protects and what has at least as many versions behind it as are kept for being recent |
| Compaction.RecentAreAsMany | src/storage/gc/gc_compactor.cpp:57-64 | exactly the configured number of versions is kept for being recent, as far as there are any |
| Compaction.ArrangedAreDistinct | src/storage/gc/gc_compactor.cpp:36-55 | the versions that a compaction works on have different identifiers |
| Compaction.RowSumConcat | src/storage/gc/gc_compactor.cpp:183-187 | the sum of rows is additive, zero for none and the rows themselves for one |
| GcCompactor.GcCompactor.Compact | src/storage/gc/gc_compactor.cpp:15-114 | the loops and the progress flag give the compaction above; a second call while one is running changes nothing |
| GcCompactor.GcCompactor.MergeVersions | src/storage/gc/gc_compactor.cpp:172-213 | writes the merged details back through the chain |
| GcCompactor.GcCompactor.MergeDetails | src/storage/gc/gc_compactor.cpp:179-199 | the accumulating loop gives the merged details |
| GcCompactor.GcCompactor.CompactableOf | src/storage/gc/gc_compactor.cpp:69-77 | the filter keeps exactly the versions that nothing protects |
| GcCompactor.GcCompactor.RecentIds | src/storage/gc/gc_compactor.cpp:60-67 | the identifiers of the last versions of the order, for any limit |
| GcCompactor.GcCompactor.Explain | src/storage/gc/gc_compactor.cpp:128-170 | counts what a compaction would keep and merge |
| GcCompactor.ProtectionChecker.RemoveSnapshotRef | src/storage/gc/protection.cpp:36-38 | an anchored version stays protected when its snapshot reference goes |
| GcCompactor.ProtectionChecker.Unanchor | src/storage/gc/protection.cpp:44-46 | a referenced version stays protected when its anchor goes |
| TimeTravel.AnswerIsNewest | src/storage/timetravel/time_travel_engine.cpp:15-143 | an exact answer is the requested version and its own file; a degraded one is always flagged as a mismatch, reports the requested and the returned version with its data range and fidelity, is among the newest 100, and no version of the model that loads is newer; a refusal means that none of the newest 100 loads |
| TimeTravel.RefusedMeansNone | src/storage/timetravel/time_travel_engine.cpp:111-142 | with at most 100 versions a refusal means that no version of the model loads |
| TimeTravel.LoadGives | src/storage/model/model_storage_layer.cpp:101-163 | a load works exactly when the file is there and is cached or readable, and gives the content of the file |
| TimeTravel.FailedLoadSpares | src/storage/model/model_storage_layer.cpp:114-134 | a load that fails makes no other load fail or work |
| TimeTravel.TimeTravelEngine.QueryAsOf | src/storage/timetravel/time_travel_engine.cpp:15-101 | gives a right answer in that sense for every chain and every state of the files and the cache |
| TimeTravel.TimeTravelEngine.FindNearestAvailable | src/storage/timetravel/time_travel_engine.cpp:103-143 | the search stops at the first listed version that loads and fills the report from it |
| Lexing.Lossless | src/parser/lexer.cpp:78-181 | the source is skipped text and token texts in turn; the end token comes last and only last; every other token has at least one character |
| Lexing.TokensUnique | src/parser/lexer.cpp:134-181 | the description of tokens leaves no choice: a source has at most one token list |
| Lexing.SkipUnique | src/parser/lexer.cpp:78-91 | where the skipped text ends is fixed |
| Lexing.TokensSplit | src/parser/lexer.cpp:170-181 | any tokens found so far are a prefix of the token list, if there is one |
| Lexing.NoTokens | src/parser/lexer.cpp:134-168 | where no token starts, no token list exists |
| Lexing.TokensAreProper | src/parser/lexer.cpp:101-132 | what the parser relies on: identifiers are not empty, strings have both quotes, one end token |
| Spellings.WordKinds | src/parser/lexer.cpp:12-44 | a word is a keyword exactly if it is the spelling of one in any letter case |
| Spellings.SymbolKinds | src/parser/lexer.cpp:146-167 | a symbol token is the longest symbol that stands there |
| Spellings.NumberShape | src/parser/lexer.cpp:108-123 | an integer is a number of digits only; no digit follows a number |
| Spellings.PlaceIsCounted | src/parser/lexer.cpp:65-70 | lines count the line breaks in front, columns the characters since the last of them |
| Lexer.Lexer.Tokenize | src/parser/lexer.cpp:170-181 | finds the token list of the source exactly when there is one |
| Lexer.Lexer.ScanToken | src/parser/lexer.cpp:134-168 | scans the next token of the description with its line and column, or fails where none starts |
| Lexer.Lexer.ScanLexeme | src/parser/lexer.cpp:134-168 | dispatches on the first character and finds the token of the description, or fails where there is none |
| Lexer.Lexer.SkipWhitespaceAndComments | src/parser/lexer.cpp:78-91 | skips white space and comments and stops only where nothing more can be skipped |
| Lexer.Lexer.ScanNumber | src/parser/lexer.cpp:108-123 | sign, digits, fraction and exponent as far as they go; an integer exactly when there is neither of the last two |
| Lexer.Lexer.ScanIdentifierOrKeyword | src/parser/lexer.cpp:125-132 | the longest run of word characters, a keyword in any letter case |
| Lexer.Lexer.ScanString | src/parser/lexer.cpp:101-106 | up to the next quote, or an error at the end of the source |
| Lexer.Lexer.ScanSymbol | src/parser/lexer.cpp:146-167 | the symbols, `>=` and `<=` before `>` and `<` |
| SourceText.LexemeLocal | src/parser/lexer.cpp:101-168 | a token followed by a space is the same token wherever it stands |
| SourceText.WordsAreTokens | src/parser/lexer.cpp:78-181 | words that are tokens each alone, with spaces between, have exactly those tokens |
| SourceText.ProgramTextsParse | src/parser/parser.cpp:30-465 | the text of any writable program has one token list, and parsing it gives the program back without errors |
| SynthLangPrinting.WrittenProgramsParse | src/parser/parser.cpp:45-465 | any token list that spells a program parses to that program without errors |
| SynthLangPrinting.ReadsStatement | src/parser/parser.cpp:72-465 | a written statement is read back and the cursor stands after it, whatever follows |
| SynthLangPrinting.ReadsColumns | src/parser/parser.cpp:117-133 | column definitions are read back in order, with types, ranges, values and modifiers |
| SynthLangPrinting.ReadsItems | src/parser/parser.cpp:302-332 | constraint items are read back in order |
| SynthLang.PassConsumes | src/parser/parser.cpp:45-66 | each pass of the loop, with recovery, consumes at least one token and stays among the tokens, so parsing ends on every token list |
| SynthLang.RecoverIsFirst | src/parser/parser.cpp:60-64 | recovery passes over no token that starts a statement |
| SynthLang.ParseStatement | src/parser/parser.cpp:72-99 | a statement consumes a token, or is rejected where it stands and none starts there |
| SynthLang.ParseColumnDef | src/parser/parser.cpp:144-245 | an accepted column has a name, a proper range and, if it is an enum, values |
| SynthLangProperties.AcceptedTypesAreValid | src/parser/parser.cpp:101-142 | every type definition that the parser accepts passes schema validation |
| SynthLangProperties.ColumnsAreOk | src/parser/parser.cpp:117-131 | accepted columns have distinct names and there is at least one |
| SynthLangProperties.ReferencesAreDeclared | src/parser/parser.cpp:247-294 | every type that an accepted statement refers to stands in some DEFINE TYPE header of the text |
| SynthLangProperties.RefersBackExactly | src/parser/parser.cpp:101-142 | for every token list: each accepted statement has an accepted definition of its type before it, if and only if none has its type from rejected definitions alone |
| SynthLangProperties.RejectedHeaderMisleads | src/parser/parser.cpp:108-119 | a rejected definition followed by an accepted statement about its type, without an accepted definition of it, always gives a program that refers to a type it does not define |
| SynthLangProperties.NoErrorsMeansDefined | src/parser/parser.cpp:30-70 | in a program without errors nothing is rejected, so every type referred to has an accepted definition before |
| SynthLangProperties.SignedComparisonRejected | src/parser/parser.cpp:377-408 | a comparison with a minus sign of its own in front of the number is never accepted |
| SynthLangProperties.FailedDefinitionStillDeclares | src/parser/parser.cpp:108-119 | one such program in full: its only accepted statement loads into a rejected type |
| SynthLangProperties.ProgramIsShort | src/parser/parser.cpp:45-66 | statements and errors together are no more than the tokens |
| SynthLangRefusals.ModifiersRead | src/parser/parser.cpp:230-242 | modifiers in any order and number: NOT makes a column not null, ORDER makes it an order column |
| SynthLangRefusals.ModifiersEnd | src/parser/parser.cpp:230-242 | they end before the first token that is none of them |
| SynthLangRefusals.LoadRefused | src/parser/parser.cpp:247-275 | loading into a type that was not declared is reported as an undefined type |
| SynthLangRefusals.GenerateRefused | src/parser/parser.cpp:417-465 | generating from such a type likewise |
| SynthLangRefusals.ConstraintRefused | src/parser/parser.cpp:277-297 | and so a constraint on one |
| SynthLangRefusals.LaterFormsRefused | src/parser/parser.cpp:305-318 | a constraint whose first item starts with DURING, WHEN, AVG or OVER is reported as not supported |
| SynthLangRefusals.LaterFormsRefusedBehind | src/parser/parser.cpp:305-335 | so is one with such a word behind an item and a comma |
| SynthLangRefusals.DuplicateColumnRefused | src/parser/parser.cpp:101-142 | a column whose name is already used is refused as a duplicate |
| SynthLangRefusals.ShortLoad | src/parser/parser.cpp:247-275 | the words DATA, INTO and FROM and the semicolon may be missing from a load statement |
| Parser.Parser.Parse | src/parser/parser.cpp:30-70 | for every source: the program of its token list, or one syntax error when it has none |
| Parser.Parser.ParseAll | src/parser/parser.cpp:45-69 | the recovery loop gives the program of the token list |
| Parser.Parser.Advance | src/parser/parser.cpp:478-501 | stays on the end token, and is never asked for the token before the first |
| Parser.Parser.ReadStatement | src/parser/parser.cpp:72-99 | the cursor and the declared names move as the description says |
| Parser.Parser.ReadDefineType | src/parser/parser.cpp:101-142 | reads a type definition as described, and declares its name even if it is then rejected |
| Parser.Parser.ReadColumnDef | src/parser/parser.cpp:144-245 | reads a column definition as described |
| Parser.Parser.ReadDefineConstraint | src/parser/parser.cpp:277-354 | reads a constraint definition as described, with the forms refused in this version |
| Parser.Parser.ReadConstraintItem | src/parser/parser.cpp:356-415 | reads an item as described; after a comparison the minus sign is looked for behind the number |
| Parser.Parser.ReadLoadData | src/parser/parser.cpp:247-275 | reads a load statement as described |
| Parser.Parser.ReadGenerateTable | src/parser/parser.cpp:417-465 | reads a generate statement as described |
| Schema.Validate | src/schema/schema.cpp:9-55 | succeeds exactly for well-formed schemas, and otherwise names what is wrong with the first bad column, an empty name before a repeated one, that before a bad range, and that before an empty enum |
| Schema.IndexOf | src/schema/schema.cpp:64-69 | the first column of the name, or -1 if there is none |
| Schema.ColumnIndex | src/schema/schema.cpp:64-69 | the loop finds that column |
| Schema.FindColumn | src/schema/schema.cpp:57-62 | the column itself, the first of its name |
| Schema.OrderColumns | src/schema/schema.cpp:71-77 | the names of exactly the order columns |
| Ranges.IntervalsAgreeWithRules | src/engine/physics/range_extractor.cpp:10-81 | for every numeric column and value: in the schema bounds and passing every rule is the same as in the interval and on no strict bound |
| Ranges.ClosedReadingsAgree | src/engine/constraint/value_range_validator.cpp:9-45 | with BETWEEN, >= and <= only, the interval and the rules agree |
| Ranges.StrictBoundFails | src/engine/constraint/value_range_validator.cpp:28-38 | with a strict constraint, > or <, they need not: its own bound can lie in the interval and fail |
| Ranges.OrderIsImmaterial | src/engine/physics/range_extractor.cpp:19-55 | intervals and errors depend only on the set of constraints |
| Ranges.InvalidRangeExactly | src/engine/physics/range_extractor.cpp:57-79 | with all columns defined, extraction fails exactly when some interval has at most one point |
| Ranges.BoundsAreAttained | src/engine/physics/range_extractor.cpp:19-55 | the narrowest bounds are the largest lower and smallest upper bound, and each is attained |
| Ranges.RulesAreConstraints | src/engine/constraint/value_range_validator.cpp:14-44 | the rules are those of the constraints on columns of the schema |
| Ranges.PassingIsMeeting | src/engine/constraint/value_range_validator.cpp:14-143 | a value passes the rules of a column exactly when it meets every constraint on it, in plain comparisons |
| Ranges.NumericRange | src/engine/physics/range_extractor.cpp:19-79 | the interval of a numeric column runs from the largest of its lower bounds to the smallest of its upper bounds, those of the schema or plus and minus ten to the eighteenth included, and keeps its enum values |
| Ranges.OtherRange | src/engine/physics/range_extractor.cpp:57-81 | other columns get no interval, a time column a year of microseconds |
| Ranges.ExtractedInOrder | src/engine/physics/range_extractor.cpp:57-81 | one range for each column, in the order of the columns |
| RangeExtractor.RangeExtractor.Extract | src/engine/physics/range_extractor.cpp:10-81 | the fold over constraints and columns gives those intervals and errors |
| RangeExtractor.RangeExtractor.Collect | src/engine/physics/range_extractor.cpp:19-55 | the map holds the narrowest bounds of every column |
| ValueRangeValidator.DrawnBatchesPass | src/engine/constraint/value_range_validator.cpp:47-149 | batches drawn from the extracted intervals have no failures, under closed constraints on numeric columns |
| ValueRangeValidator.ChunkFailures | src/engine/constraint/value_range_validator.cpp:77-143 | the failures of a chunk are those of its cells below the minimum, above the maximum or on a strict bound of the rule, in order, each with its row, column, value and bounds |
| ValueRangeValidator.FailuresCountRows | src/engine/constraint/value_range_validator.cpp:65-147 | the failure count is never below the number of failing rows, and it is that number if and only if no row breaks two rules |
| ValueRangeValidator.FailuresWithinRows | src/engine/constraint/value_range_validator.cpp:65-147 | it stays within the rows of the batch when no row breaks two rules |
| ValueRangeValidator.ValueRangeValidator.constructor | src/engine/constraint/value_range_validator.cpp:9-45 | builds one rule per constraint on a known column |
| ValueRangeValidator.ValueRangeValidator.ValidateBatch | src/engine/constraint/value_range_validator.cpp:47-149 | counts all failures, keeps the first hundred, and reports a null batch or a column that is missing or doubled |
| ValueRangeValidator.ValueRangeValidator.CheckColumn | src/engine/constraint/value_range_validator.cpp:72-143 | the chunk loops find the failures of a column in order |

## Left out

- ObjectStoreBackend.Backend.Reload: no version in a file carries the largest 64-bit number, where the program overflows; `ReachedFilesReload` shows this of every state reached over safe ids. A number that does not convert is an error result, where the program throws.
- InterRowEngine.Engine.ExecuteBatch: what the engine reads from the buffer of a cell that is no floating-point number is an input of that cell, and so is what stands in the buffer of a null cell; bit patterns that read as NaN or infinity are not modelled.
- AggregateEngine.Engine.ComputeWindows: the order column holds 64-bit integers, as the program takes for granted, and window ends do not overflow.
- CheckpointProtocol.RecoveryRemovesPending: for writes under names that recovery finds and a start without pending files; `CleanedExactly` shows that no other names will do.
- ModelStorage.LoadAgreesWithDisk: for saves that do not fail after truncating; `TornSaveBreaks` gives the exact condition when one does. Opening a directory for reading is a failed read, where on some systems the program throws; outside changes other than deletions are not modelled.
- ObjectStoreLosses.SafeIdsExactly: ids on whose way a file of their own table would have to stand, such as `metadata.json/..`, are left out of the runs; some file of theirs can never be written.
- Compaction.CompactSumsModel: for models of at most 100000 versions, the limit of the listing; beyond it `CompactMerges` holds of the listed ones.
- TimeTravel.TimeTravelEngine.QueryAsOf: like the program it does not compare the model of the requested version with the model asked for, so an exact answer may name a version of another model.
- ValueRangeValidator.DrawnBatchesPass: strict constraints are excluded, because the claim fails for them, and the values of integer columns are the stored integers.
- Parser.Parser.Parse: error messages and positions are left out, and numerals are read by an arbitrary total conversion, where the program throws on numerals out of range. The errors for an empty enum and a type without columns cannot occur and have no branch.
- Rounding, infinities and NaN: all floating-point values are exact reals, and row sums do not overflow.
- `std::sort` is any arrangement in order; the insertion sort that stands for it is not the library's algorithm.
- File names are resolved in the text: dot segments, repeated and leading slashes count, but not symbolic links, limits on length, or NUL characters, at which the system cuts a name short. The object store, which creates the directories that it needs, is modelled without them.
- The p-value, the critical value and `detect`: formulas around the statistic.
- Scan predicates, column projections, Parquet and Arrow internals: libraries that the model does not see; a part file is a sequence of rows.
- `add_snapshot` of the metadata manager: no caller; tables with snapshots are covered by the metadata round trip.
- SHA-256: the hash is an arbitrary function.
- Thread interleavings: the model is of sequential runs with crashes.
- `list_model_versions`, `get_latest`, the audit `scan`, `auto_compact_check` and all `explain` stubs: they only add easy members.
- Metrics, spans, the HTTP server, Python bindings, the sampler, the router, the classifier, the post-filter and the scaffold generator.
- The names of constraints in the failures of the validator, and the order in which forks are reported: copied and sorted by the program, without an effect elsewhere.
