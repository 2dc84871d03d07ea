# Verified model of Depsilo's cores

Depsilo is a caching dependency proxy. This Dafny project models the parts of it whose correctness
depends on order, crashes, races or exact arithmetic, and proves what they are meant to guarantee.
`dafny verify dfyconfig.toml` checks all of it. There is one module per component.

**Journaled restore** (`RestorePaths`, `RestoreState`, `RestoreJournal`). A disk is a map from file
names to contents. The class `Disk` remembers every state it has been in, so a stop of the process
between any two file operations is the choice of one of these states, partial copies included.
Methods follow installation and recovery branch by branch, and every operation may fail; on a disk
that is given as `reliable` it fails only for a reason, and then recovery and installation have to
get through. The other classes whose operations may fail have such a constant too. `CrashSafe`
describes the states a restore may be stopped in, `Resolve` says what an undisturbed recovery makes
of a disk, and `Work` is the measure that every recovery step lowers. The names of the files are
kept apart by what the check on the two targets refuses, which `RestorePaths` proves.

**Publication and revocation in the package cache** (`InvalidationRegistry`, `KeyProtocol` with
`KeyPreservation`, `KeyRevocation` and `KeyProgress`, `PackageInvalidation`, `KeyGate`). The
registry and the gate are classes with the fields and methods they have in the program. One cache
key is a state machine of a row tag, an object tag, the registry state, the gate and the program
counter of every process; a tag names the write a representation came from and how many
invalidations had begun by then. Deletes and row writes may fail with or without having taken
effect, a failed `Put` leaves the object as it was, locks may time out, and another key may make the
registry fail closed at any time. Beside what holds of every run, `KeyProgress` proves what an
undisturbed process gets done. Package invalidation is a method over a map of such keys, with any
steps of other processes between any two of its own.

**Compiler cache** (`CompileLedger`, `CompileEviction` with `EvictionRaces`, `CompileProtocol` with
`CompileObjects`, `CompileBooks`, `CompileRuns`, `CompileProgress` and `CompileReconcile`,
`ByteSource`, `ChecksumBody`). Eviction is the paginated loop, proved against sort-and-drop on the
table. Uploads, removals, deletion workers, stops and start-up form a state machine, with the
deletion queue, the quota ledger and the object store in its state; start-up is a class whose every
operation is an event of that machine. Generated paths are fresh, a failed transaction has no
effect, and what an upload writes reaches the store before its deferred deletion marker is due. The
checksum reader is a class over a source of any chunking and any failures.

**Audit chain and delivery** (`AuditChain`, `Delivery`). The hash is an injective, never empty term.
Writers race on the head; checkpoints are taken of earlier tables. The delivery cursor runs over two
logs that grow by increasing ids and may be pruned between any two polls.

**Codecs and bounded transforms** (`StoragePath`, `Staging` with `StagingGate`, `ResponseMetadata`,
`ExactSize`, `Retention` with `RetentionVictims`). Strings of bytes are strings of characters below
256. JSON string length is a parameter, as are the SHA-256 hex digest and UTF-8 validity. The expiry
and eviction passes of the reclaim and the preview that predicts them work on one store.

One claim turned out false as it is often put: `percentOf` does not keep every intermediate value
within the total. `Retention.SomeAboveTotal` has an input, `Retention.NoneAboveTotalExactlyIf` the
exact condition and the bound from which it always holds.

## Model

| member | source | states |
|---|---|---|
| `RestorePaths.NamesAreDistinctFiles` | internal/backup/path_identity.go:120-164 | For every pair of targets the pair check accepts, any two different roles (target, sidecar, candidate or saved copy of any transaction, journal) are different files, with or without case folding |
| `RestorePaths.TargetsDiffer` | internal/backup/path_identity.go:128-157 | The four live files of an accepted pair (config, database, -wal, -shm) are pairwise different |
| `RestorePaths.TargetIsNoWorkFile` | internal/backup/path_identity.go:159-164 | A live file is never a candidate, a saved copy or the journal of any transaction: the reserved names see to it |
| `RestorePaths.MarkedNames` | internal/backup/restore_journal.go:634-640 | Every candidate and saved-copy name carries a mark that the target check refuses |
| `RestorePaths.UsualPairIsAccepted` | internal/backup/path_identity.go:120-164 | The checks are not idle: config.toml and depsilo.db side by side are accepted, with or without case folding |
| `RestoreState.NewDatabaseHasNoOldSidecar` | internal/backup/restore_journal.go:448-458 | A database that is not the old one never stands beside an old -wal or -shm |
| `RestoreState.OldBytesAreKept` | internal/backup/restore_journal.go:401-419 | The old content of every file that existed is at its target or at its saved name in every such state |
| `RestoreState.ReachableJournalIsValid` | internal/backup/restore_journal.go:316-399 | The journal of every such state passes the validation recovery starts with |
| `RestoreState.NoRefusal` | internal/backup/restore_journal.go:215-314 | In every such state past the commit point the live config matches the journal and the database is live or waiting as announced, so neither "cannot be recovered safely" branch is reachable |
| `RestoreJournal.Disk.CopyExclusive` | internal/backup/restore_journal.go:550-562 | An exclusive copy fails on an existing target; stopped or failed it leaves a prefix of the content, successful the whole of it, and it touches no other file |
| `RestoreJournal.Disk.PublishEntry` | internal/backup/restore_journal.go:421-446 | The candidate is verified, renamed in one step, and verified again; failure leaves either the state before or the state after the rename |
| `RestoreJournal.Disk.WriteJournal` | internal/backup/restore_journal.go:500-539 | The journal is replaced in one step or not at all; an unconfirmed write has replaced it |
| `RestoreJournal.Disk.Preserve` | internal/backup/restore_journal.go:401-419 | A live file that exists is copied in full to its saved name; when that fails the saved name is gone, or holds a part of the content that could not be removed |
| `RestoreJournal.FirstJournal` | internal/backup/restore_journal.go:54-213 | With both candidates and all saved copies in place, writing the first journal gives a recoverable state that still stands for the old files |
| `RestoreJournal.CommitConfig` | internal/backup/restore_journal.go:54-213 | The rename of the config candidate alone moves the state from standing for the old files to standing for the new ones |
| `RestoreJournal.DropJournal` | internal/backup/restore_journal.go:460-481 | Removing the journal of an uncommitted restore abandons it: the old files are live, and less recovery work is left |
| `RestoreJournal.DropWorkFile` | internal/backup/restore_journal.go:460-481 | Removing a leftover of an abandoned restore keeps it abandoned, touches no live file and lowers the work left |
| `RestoreJournal.DropSidecar` | internal/backup/restore_journal.go:448-458 | Removing a sidecar of a committed restore keeps it recoverable to the new files and lowers the work left |
| `RestoreJournal.MoveDatabase` | internal/backup/restore_journal.go:421-446 | Renaming the waiting database into place keeps a committed restore recoverable to the new files and lowers the work left |
| `RestoreJournal.WritePhase` | internal/backup/restore_journal.go:500-539 | Recording a later phase whose state has been reached keeps the outcome and lowers the work left |
| `RestoreJournal.DropFinished` | internal/backup/restore_journal.go:483-490 | Removing leftovers and then the journal of a finished restore keeps the new files live and the saved copies in place |
| `RestoreJournal.AbortPrepared` | internal/backup/restore_journal.go:460-481 | Every state on the way stands for the old files, with decreasing work; success leaves exactly the disk it found without the journal, both candidates and the saved copy of every file that existed; with nothing failing it succeeds |
| `RestoreJournal.DiscardAll` | internal/backup/restore_journal.go:460-481 | Every file the entries list is tried, also past a removal that fails; success leaves exactly the disk without them |
| `RestoreJournal.DetachSidecars` | internal/backup/restore_journal.go:448-458 | Every state on the way stands for the new files, with decreasing work; success leaves no sidecar, nothing else is touched, and with nothing failing it succeeds |
| `RestoreJournal.Advance` | internal/backup/restore_journal.go:500-539 | Recording a phase keeps every state on the way recoverable to the new files |
| `RestoreJournal.Finish` | internal/backup/restore_journal.go:483-490 | Success leaves the complete new files, every saved copy, no candidate and no journal; a failure stays recoverable; with nothing failing it succeeds |
| `RestoreJournal.RenameDatabase` | internal/backup/restore_journal.go:421-446 | Publishing the database keeps every state on the way recoverable to the new files; success has it installed |
| `RestoreJournal.Recover` | internal/backup/restore_journal.go:215-314 | From any state a restore may be stopped in, every file operation keeps the outcome already decided and strictly lowers the work left. Recovery never refuses; with nothing failing it always gets through; and when it does, the live files are that outcome and the journal is gone: an abandoned restore leaves exactly the disk without its journal, candidates and saved copies, a completed one its saved copies and no candidate. It reports nothing pending exactly if there is no journal |
| `RestoreJournal.RecoverUntilDone` | internal/backup/restore_journal.go:215-314 | Recovery stopped any number of times, each time after any file operation, and then run through ends with the same live files as a single undisturbed recovery, and with nothing failing it does end |
| `RestoreJournal.RecoverCommitted` | internal/backup/restore_journal.go:215-314 | Past the commit point every state on the way stands for the new files; success leaves them complete with the saved copies, no candidate and no journal; with nothing failing it succeeds |
| `RestoreJournal.CompleteDatabase` | internal/backup/restore_journal.go:215-314 | The second half of recovery: with the sidecars gone it never refuses, its success leaves the complete new files without a candidate or a journal, and with nothing failing it succeeds |
| `RestoreJournal.Stage` | internal/backup/restore_journal.go:54-213 | Staging a file touches no live file; success leaves the candidate with exactly the offered bytes |
| `RestoreJournal.PreserveAll` | internal/backup/restore_journal.go:54-213 | Saving the live files touches none of them; success leaves a complete saved copy of each file that exists; with nothing failing and no saved copy in the way it succeeds |
| `RestoreJournal.RecordsWhatWasSaved` | internal/backup/restore_journal.go:54-213 | The journal assembled step by step is the one that records exactly the files that existed before |
| `RestoreJournal.Prepare` | internal/backup/restore_journal.go:54-213 | Refused, it leaves the old live files and no journal and, with nothing failing, no file it has made; otherwise the first journal is on disk, valid, with all candidates and saved copies complete; with nothing failing and a new transaction id it is not refused |
| `RestoreJournal.Publish` | internal/backup/restore_journal.go:54-213 | From the first journal on every state on the way is recoverable; success leaves the complete new files, the saved copies, no candidate and no journal; with nothing failing it succeeds |
| `RestoreJournal.InstallJournaled` | internal/backup/restore_journal.go:54-213 | All or nothing: every state on the way, process stops included, resolves to what the disk stood for before or is a recoverable state of the new restore, in which no journal means the complete old or the complete new live files; installed means complete new files, no journal, no candidate and exactly the saved copies listed; refused means the old outcome stands. With nothing failing, an offer with a new transaction id over ordinary files is installed |
| `RestoreJournal.Campaign` | internal/backup/restore_journal.go:54-314 | Over any sequence of restores and recoveries, each stopped after any file operation: with no journal on disk the live files are the first ones or one complete offer, and with nothing failing the last recovery gets there |
| `InvalidationRegistry.NoGenerationReuse` | internal/cache/invalidation_state.go:148-191 | A key with a write or an invalidation outstanding, the settled one included, has a state of a generation at least theirs that no settling or failing closed removes or turns back |
| `InvalidationRegistry.TombstonesAreKept` | internal/cache/invalidation_state.go:148-170 | A tombstone whose cleanup is not known safe survives every settling short of failing closed |
| `InvalidationRegistry.SettledSeenFromAKey` | internal/cache/invalidation_state.go:148-183 | Settling one key changes no other key, except that failing closed forgets the states nobody uses |
| `InvalidationRegistry.UpdateKey` | internal/cache/invalidation_state.go:148-191 | Changing the state of one key consistently keeps the retained counter equal to the number of retained states |
| `InvalidationRegistry.FailClosed` | internal/cache/invalidation_state.go:172-183 | Failing closed keeps every state in use consistent with its tokens and leaves nothing retained |
| `InvalidationRegistry.SettlingOutcome` | internal/cache/invalidation_state.go:148-183 | What settling a key in use comes to: a state still in use is stored, an idle one goes unless it is a tombstone not known to be safe, and that one is retained, or from 4096 on fails the registry closed |
| `InvalidationRegistry.Joins` | internal/cache/invalidation_state.go:32-43 | Joining a retained state takes it out of the retained count and keeps the registry consistent |
| `InvalidationRegistry.Registry.BeginWrite` | internal/cache/invalidation_state.go:32-43 | The write receives the current generation and its token; all other keys are unchanged |
| `KeyRevocation.WriteIsCurrent` | internal/cache/invalidation_state.go:45-50 | In every reachable state, asking whether a write under way is current says exactly whether no invalidation has begun since the write |
| `InvalidationRegistry.Registry.CommitWrite` | internal/cache/invalidation_state.go:55-67 | Commits exactly if the generation is still current; then the tombstone is lifted, and the key is forgotten exactly if nobody else uses it; a superseded write changes nothing |
| `InvalidationRegistry.Registry.AbortWrite` | internal/cache/invalidation_state.go:69-81 | Gives the token back; the key stays as it is while others use it, and with its last user a key without a tombstone, or with one that is safe to lift, is forgotten; at most 4096 states are retained afterwards |
| `InvalidationRegistry.Registry.MarkCleanupSafe` | internal/cache/invalidation_state.go:83-92 | Marks the cleanup of the key safe, and nothing else |
| `InvalidationRegistry.Registry.BeginInvalidation` | internal/cache/invalidation_state.go:94-108 | A strictly newer generation, a tombstone and no safe cleanup, whatever the key was before |
| `KeyRevocation.PendingMeansUndisturbed` | internal/cache/invalidation_state.go:110-115 | As long as an invalidation is under way, asking whether it is pending says exactly whether no other invalidation has begun and no write has committed since, over every run |
| `InvalidationRegistry.Registry.FinishInvalidation` | internal/cache/invalidation_state.go:117-129 | The key is readable afterwards exactly if the registry is open and it had no tombstone, or this is its last user and some cleanup was safe, a safe one of this call counting only for the current generation; the last user of a key safe to lift leaves no state of it, of any other a retained tombstone or, from 4096 on, a registry that is closed; while others use the key its tombstone stays |
| `InvalidationRegistry.ReadableAfterSettling` | internal/cache/invalidation_state.go:141-170 | What a settling makes readable: the settled key exactly if its tombstone was lifted or its last user leaves after a safe cleanup, any other key exactly if it was readable, and nothing once the registry has failed closed |
| `InvalidationRegistry.Registry.SettleIdle` | internal/cache/invalidation_state.go:148-170 | The settled registry is consistent again: idle states that may be forgotten are gone, others are retained and counted |
| `InvalidationRegistry.Registry.CapRetained` | internal/cache/invalidation_state.go:172-183 | One retained state over 4096 fails closed and drops exactly the states nobody uses |
| `KeyPreservation.NextKeepsInv` | internal/cache/manager.go:1408-1606 | Every step of every writer, refresh, invalidation, reader and removal, with any failure, keeps the protocol invariant |
| `KeyRevocation.RunKeepsInv` | internal/cache/manager.go:1408-1945 | The invariant holds over every interleaving |
| `KeyRevocation.BodyAndMetadataMatch` | internal/cache/manager.go:857-939 | In every reachable state with the gate free and the key readable, a present row and a present object come from the same write, which no invalidation has revoked |
| `KeyRevocation.RevocationIsSticky` | internal/cache/manager.go:1947-2003 | Every snapshot read returned after an invalidation has begun pairs a row with its own object, written by a write that began no earlier than that invalidation; only a read already past its last check is excused, and only as the next to return |
| `KeyProgress.ReadIsServed` | internal/cache/manager.go:866-926 | With the gate free, the key readable and row and object there, a read that nothing fails returns them, and leaves everything else as it was |
| `KeyProgress.InvalidationCompletes` | internal/cache/manager.go:1685-1719 | From every reachable state with the gate free, whichever deletes fail: an undisturbed invalidation leaves a key nobody else uses readable exactly if one delete went through, and otherwise sealed; a key in use stays sealed, with its tombstone marked safe exactly if one did |
| `KeyProgress.StoreCompletes` | internal/cache/manager.go:1408-1606 | From every reachable state with the gate free: an undisturbed first store, or refresh of a row that is there, leaves its own row with its own object, and the key readable unless the registry has failed closed |
| `KeyProgress.RemovalCompletes` | internal/cache/retention.go:354-408 | An undisturbed removal leaves neither row nor object and nothing else changed |
| `KeyRevocation.NextKeepsFresh` | internal/cache/manager.go:831-1026 | No single step serves a revoked object |
| `KeyRevocation.RunKeepsFresh` | internal/cache/manager.go:831-1026 | No run serves a revoked object |
| `KeyRevocation.FailClosedIsForever` | internal/cache/invalidation_state.go:141-146 | Once the registry has failed closed the key is never readable again, whatever runs |
| `KeyPreservation.WriterCommits` | internal/cache/manager.go:1449-1600 | The commit of a current write leaves row and object of that write paired and readable |
| `KeyPreservation.WriterRevokes` | internal/cache/manager.go:1652-1679 | A writer that takes its own object down after a failed row write seals the key first: nothing that finishes later makes it readable |
| `KeyPreservation.WriterFinishesRevocation` | internal/cache/manager.go:1652-1679 | It declares that cleanup safe only when both deletes went through |
| `KeyPreservation.WriterMarksCleanup` | internal/cache/manager.go:1931-1945 | A superseded write marks its cleanup safe only with the row and the object gone |
| `KeyPreservation.WriterAborts` | internal/cache/manager.go:1408-1606 | The abort that follows the release of the gate harms no process that has taken the gate meanwhile |
| `KeyPreservation.InvalidatorFinishes` | internal/cache/manager.go:1685-1719 | The finish that follows the release of the gate is harmless: the generation check stops it from clearing a newer tombstone |
| `KeyPreservation.HolderStable` | internal/cache/manager.go:1620-1632 | What the gate holder has achieved on row and object no other process undoes |
| `KeyPreservation.RemoverKeepsInv` | internal/cache/retention.go:354-408 | The guarded removal of the retention pass keeps the protocol invariant, whichever delete fails |
| `PackageInvalidation.RevocationIsForGood` | internal/cache/package_invalidation.go:34-188 | What is revoked stays revoked and what is gone stays gone over every run that follows |
| `PackageInvalidation.RunKeepsGone` | internal/cache/package_invalidation.go:138-187 | An old row or an old object that has been deleted is never seen again |
| `PackageInvalidation.NextKeepsSince` | internal/cache/manager.go:1449-1606 | A write of an older generation is stopped before it stores anything, so only newer writes reach row or object |
| `PackageInvalidation.IBegin` | internal/cache/invalidation_state.go:94-108 | Beginning the invalidation revokes everything written before |
| `PackageInvalidation.IHoldTheGate` | internal/cache/package_invalidation.go:138-187 | A cleanup that calls itself safe has removed the old row or the old object |
| `PackageInvalidation.OthersKeep` | internal/cache/package_invalidation.go:34-188 | Whatever other processes do to a key leaves my place in it, revocations and deletions intact |
| `PackageInvalidation.Entries` | internal/cache/package_invalidation.go:81-119 | What is found of a package: the matching keys with a flight, a refresh or a non-empty row key |
| `PackageInvalidation.PackageCache.RevokeAll` | internal/cache/package_invalidation.go:121-137 | The first pass: every entry is revoked with a fresh generation by an operation of its own in the log, and nothing is deleted yet |
| `PackageInvalidation.PackageCache.CleanUp` | internal/cache/package_invalidation.go:138-187 | The cleanup of one entry: safe means the old row or object is gone; it is safe exactly if none of its operations in the log spoils it, and reports a failure exactly if one of them errs |
| `PackageInvalidation.PackageCache.CleanUpLocked` | internal/cache/package_invalidation.go:138-187 | From taking the gate to letting it go: the same, with the entry still revoked |
| `PackageInvalidation.PackageCache.DeleteBoth` | internal/cache/package_invalidation.go:150-166 | The object is deleted whether or not the row was; safe means one of the two deletes went through |
| `PackageInvalidation.PackageCache.CleanUpAll` | internal/cache/package_invalidation.go:138-187 | The second pass: safe to restore exactly if no entry met a gate that could not be had, found itself superseded, or had both deletes fail, and then the old row or object of every entry is gone; a failure is reported exactly if one of these happened or a delete failed |
| `PackageInvalidation.JudgeBothParts` | internal/cache/package_invalidation.go:138-187 | What the log says of two stretches of a cleanup one after the other is what it says of the whole |
| `PackageInvalidation.PackageCache.InvalidatePackage` | internal/cache/package_invalidation.go:34-188 | For any set of keys and any interference, flights that end before their writer has let go included: before this call does anything else every matching entry has had its invalidation begun, each revocation counts from that very operation of the log, so no read served after it returns an older object, a read already past its last check excepted. Unless the listing fails, the result is safe to restore exactly if no operation of the cleanup spoils it (a gate that can not be had, an invalidation superseded under the gate, both deletes failed), and then the old row or object of every entry is gone for good; an error is reported exactly if, besides, no delete failed. With a store that works, the listing does not fail and only a taken gate or a superseded invalidation is left to spoil it. A key of the package that is not found has no row and no writer that may still store one |
| `PackageInvalidation.PackageCache.Publish` | internal/cache/package_invalidation.go:81-136 | While both registries are held: the rows are listed, and then every entry is revoked, with nothing deleted |
| `PackageInvalidation.NextAddsNoStorer` | internal/cache/manager.go:1408-1439 | Only a new write makes a process that may store: a writer that has failed or committed never stores again, though it still holds the gate or its token |
| `PackageInvalidation.UnfoundStaysAbsent` | internal/cache/package_invalidation.go:76-134 | A key without a row and without a writer that may store gets a row only from a write that begins later |
| `CompileLedger.AddKeepsTidy` | internal/compilecache/service.go:907-925 | The namespace counter equals the number of namespaces with a non-zero usage after every addition |
| `CompileLedger.ReadingAfterAdd` | internal/compilecache/service.go:907-925 | An addition changes the reading of its namespace and of the whole by its amount, and no other reading |
| `CompileLedger.TotalWithout` | internal/compilecache/service.go:907-925 | A sum of charges splits off any one of them: it does not depend on the order |
| `CompileLedger.TotalAfterSet` | internal/compilecache/service.go:907-925 | Setting a charge changes the sum by exactly the difference |
| `CompileLedger.TotalBounds` | internal/compilecache/service.go:907-925 | Sums of non-negative charges are non-negative and no less than any one charge |
| `CompileEviction.CursorAdvances` | internal/compilecache/service.go:1287-1306 | Moving the keyset cursor past the first candidate leaves exactly the other candidates, whether or not that row has been deleted: no row is visited twice or skipped across pages |
| `CompileEviction.VictimsAreTheShortestPrefix` | internal/compilecache/service.go:1260-1357 | The victims are the shortest prefix, in (last accessed, id) order, of the rows in scope that are neither busy nor excluded that brings bytes and entries to the target; all such rows when no prefix does |
| `CompileEviction.LeftIsTheRest` | internal/compilecache/service.go:1276-1279 | What is left after evicting rows is the usage less the sum of their sizes and their number |
| `CompileEviction.ReportIsTheDrop` | internal/compilecache/service.go:1344-1352 | Reported bytes and entries are exactly what the ledger drops by in the scope of the run |
| `CompileEviction.VictimsAreNotSpared` | internal/compilecache/service.go:1305-1334 | No busy row and no row of the excluded artifact is a victim |
| `CompileEviction.OnlySparedAreLeft` | internal/compilecache/service.go:1283-1357 | A run that ends with the usage still too high has left nothing in its scope that it may evict |
| `CompileEviction.RoomMade` | internal/compilecache/service.go:854-905 | The rows of one more run went while there was too much in their namespace or in all, none of them is excluded, and no scope is fuller than before |
| `CompileEviction.ReadingAfterRelease` | internal/compilecache/service.go:927-934 | Releasing evicted rows lowers every reading by exactly the rows in its scope |
| `CompileEviction.ProgressByEviction` | internal/compilecache/service.go:1335-1348 | Evicting a candidate and going on evicts the same victims as the sort-and-drop from the start |
| `CompileEviction.ProgressBySparing` | internal/compilecache/service.go:1305-1334 | So does passing over a spared candidate |
| `CompileEviction.LeadsOn` | internal/compilecache/service.go:1251-1255 | Two eviction runs in a row are one run over the rows removed by both |
| `CompileEviction.Service.AddCapacity` | internal/compilecache/service.go:907-925 | The ledger after adding an amount, namespace entries that reach zero being dropped |
| `CompileEviction.Service.Evict` | internal/compilecache/service.go:1335-1348 | One transaction: the row goes, its path is queued for deletion, its capacity is given back |
| `CompileEviction.Service.Consider` | internal/compilecache/service.go:1305-1348 | One candidate: passed over exactly if spared; the run keeps leading to the victims |
| `CompileEviction.Service.EvictPage` | internal/compilecache/service.go:1287-1349 | One page of candidates advances the cursor past at least one of them and keeps the run on its way to the victims |
| `CompileEviction.Service.CleanupTo` | internal/compilecache/service.go:1260-1357 | For any rows, busy set, scope and target it terminates, evicts exactly the victims of sort-and-drop, queues exactly their paths and lowers the ledger by exactly what it reports. A negative target is refused; otherwise it succeeds exactly if bytes and entries are then at most the target, and when it does not every row left in scope is busy or excluded. A database error leaves a prefix of the victims evicted |
| `CompileEviction.VictimsGoForRoom` | internal/compilecache/service.go:1260-1357 | Each evicted row goes while bytes or entries, in its scope, exceed the target |
| `EvictionRaces.RacingService.CleanupAmid` | internal/compilecache/service.go:1260-1357 | The same loop while others lock, touch, replace and remove rows: every step is one of others or one of the evictions; each evicted row was listed before, is unchanged when it goes, is locked by nobody else, is in scope and not the excluded one, and goes while there is too much; the evictions follow the order of the query over the whole run; the report is what the ledger drops by; success means exactly that bytes and entries are at most the target, and failure that every row that was there, unchanged and unlocked, all the time is gone; and it ends once the others stop |
| `EvictionRaces.RacingService.Consider` | internal/compilecache/service.go:1305-1349 | A candidate is evicted only if its key lock can be had and the row read again is still the one that was listed; it is passed over only if it is excluded or has been locked or changed since the start |
| `EvictionRaces.ListedLater` | internal/compilecache/service.go:1321-1334 | Whatever bears the id of a listed row later is that row unchanged or has a later time of update, so the comparison on reload tells |
| `EvictionRaces.FreeListed` | internal/compilecache/service.go:1283-1306 | A page, with what comes after it, holds every row that has been in scope, unchanged and unlocked since the start and is not behind the cursor |
| `EvictionRaces.RacingService.EvictPage` | internal/compilecache/service.go:1305-1349 | A page moves the cursor on past its first candidate at least, whatever others do |
| `EvictionRaces.LessAhead` | internal/compilecache/service.go:1283-1306 | Each page leaves strictly fewer rows behind the cursor while others do nothing |
| `CompileEviction.Service.ReserveCapacity` | internal/compilecache/service.go:854-905 | Success means bytes and entries of the namespace and of the whole are then within their limits with the amount included; nothing is evicted while both have room, and never the artifact being stored; it is refused only if in the namespace or in all the amount alone is over the limit or everything left is busy or of that artifact |
| `CompileEviction.Service.MakeRoom` | internal/compilecache/service.go:854-905 | One eviction run on behalf of a reservation, if the amount does not fit: success means it then fits, refusal that there is no room to be made |
| `CompileEviction.Service.EnforceLimits` | internal/compilecache/service.go:1211-1249 | Success means bytes and entries of every namespace and of the whole cache are within the limits; each evicted row went while its namespace or the whole was over them; it gives up only if some scope is over its limit with everything left in it busy; the report is what all runs together removed |
| `CompileEviction.Service.BringDown` | internal/compilecache/service.go:1224-1243 | One run over a scope that is over its limit, its report added to those before: namespaces within their limits stay so |
| `CompileObjects.NextKeepsStore` | internal/compilecache/service.go:594-852 | Every step of uploads, removals, deletion workers, start-up and stops keeps rows, objects and deletion queue consistent |
| `CompileBooks.NextKeepsBooks` | internal/compilecache/service.go:594-934 | Every step keeps the ledger equal to the rows plus what processes still owe |
| `CompileRuns.ObjectsAreConserved` | internal/compilecache/service.go:594-1011 | After any run with any number of stops: the object of every row is stored with the size of the row unless damaged from outside, every stored object belongs to a row or has a deletion record, never both, and rows never share an object |
| `CompileRuns.LiveObjectsAreNeverDeleted` | internal/compilecache/service.go:950-1011 | In every reachable state no step, short of damage from outside, removes an object that a row refers to |
| `CompileProgress.UploadCompletes` | internal/compilecache/service.go:594-757 | From every reachable state: an undisturbed upload for which there is room in bytes and entries is committed, with its object stored and no deletion record for it, the ledger moved by exactly the difference to the previous entry in the scopes of its namespace and in no other, and the object it replaces queued and handed to a worker |
| `CompileProgress.DeletionCompletes` | internal/compilecache/service.go:950-1011 | A worker that finds a record due deletes its object, and the record goes exactly if the deletion succeeded |
| `CompileProgress.RemovalCompletes` | internal/compilecache/service.go:759-815 | From every reachable state: an undisturbed removal leaves neither row, object nor record, the ledger less that entry, and everything else as it was |
| `CompileObjects.DueMeansPastDeadline` | internal/compilecache/service.go:940-948 | A deletion record that has become due belongs to no upload that can still commit |
| `CompileObjects.DueIsDead` | internal/compilecache/service.go:994-1011 | Everything on the list of a deletion worker is dead: no row refers to it and none will |
| `CompileObjects.CommitIsGood` | internal/compilecache/service.go:689-750 | The commit, which removes the marker of the new object and queues the old one in one transaction, keeps rows, objects and queue consistent |
| `CompileObjects.SweepIsGood` | internal/compilecache/service.go:950-966 | Deleting a dead object, and forgetting its record only after the delete succeeded, keeps them consistent |
| `CompileObjects.StopIsGood` | internal/compilecache/service.go:594-852 | A stop of the process at any moment keeps them consistent |
| `CompileRuns.LedgerIsExact` | internal/compilecache/service.go:854-934 | In every reachable running state the ledger of each namespace and of the whole is the sum over rows plus reserved or unreleased amounts, equal to the rows when nothing is under way, and its namespace counter is right |
| `CompileBooks.CommitBalances` | internal/compilecache/service.go:689-750 | A commit turns a reservation into a row and the left-over to release, whether it creates, grows or shrinks the entry |
| `CompileBooks.RemovalBalances` | internal/compilecache/service.go:759-815 | A removal turns a row into an amount still to release |
| `CompileBooks.NextStaysBounded` | internal/compilecache/service.go:594-934 | While the service is up, no step of any upload, removal, eviction or deletion exceeds the limits |
| `CompileRuns.LimitsHold` | internal/compilecache/service.go:854-934 | Over every run, with any number of stops and starts in it: if bytes and entries of the rows, and of the ledger while the service is up, are within the limits of the whole and of every namespace, they stay so |
| `CompileRuns.NextStaysWithinLimits` | internal/compilecache/service.go:854-934 | No event at all, stops and starts included, takes rows or ledger over the limits |
| `CompileRuns.RowsAreWithinTheLedger` | internal/compilecache/service.go:854-934 | What the rows take up never exceeds what the ledger reads |
| `CompileBooks.RebuiltIsExact` | internal/compilecache/service.go:1158-1172 | The rebuilt ledger reads exactly what the remaining rows take up, in every scope, with the right namespace counter |
| `CompileReconcile.Startup.Reconcile` | internal/compilecache/service.go:1087-1189 | Recorded as a run of the machine from its first to its last step. When it gets through: exactly the rows that had an object of their size in the store are left, the ledger is exact for them, each still has that object unless the run damaged it from outside, and exactly the other objects that were there, orphans that are too young excepted, have had their deletion attempted by a worker. With nothing failing it gets through; when it fails no good row has been given up and nothing else has been deleted |
| `CompileReconcile.Startup.CheckRow` | internal/compilecache/service.go:1118-1165 | A row without an object goes, a row with one of another size goes and its object is queued in the same transaction, and any other row is counted |
| `CompileReconcile.Startup.CheckRows` | internal/compilecache/service.go:1106-1166 | Page by page every row is looked at once; a failure leaves the walk where it stood |
| `CompileReconcile.Startup.GiveRowUp` | internal/compilecache/service.go:1138-1157 | The transaction drops the row and queues its object if there is one, and keeps rows, objects and queue consistent |
| `CompileReconcile.Startup.SetLedger` | internal/compilecache/service.go:1167-1172 | The ledger is set to the figures added up row by row, which is the ledger of the rows that are left |
| `CompileReconcile.Startup.SweepOrphans` | internal/compilecache/service.go:1177-1186 | Every unclaimed object that is old enough is queued and its deletion attempted, and no other; a failure leaves some of them |
| `CompileReconcile.TallyOneMore` | internal/compilecache/service.go:1158-1165 | Counting one more row keeps the figures those of a ledger for the rows counted |
| `CompileReconcile.OneLedgerPerRows` | internal/compilecache/service.go:1167-1172 | There is only one ledger for given rows, so the order in which they are counted does not matter |
| `CompileObjects.DropRowIsGood` | internal/compilecache/service.go:1118-1157 | Dropping a row at start-up keeps rows, objects and queue consistent, as long as an object that is there is queued |
| `CompileObjects.DropOrphanIsGood` | internal/compilecache/service.go:1177-1186 | Deleting an object nobody refers to keeps rows, objects and queue consistent |
| `ChecksumBody.ChecksumVerifyingBody.Fill` | internal/compilecache/service.go:136-154 | One read grows hash and pending bytes alike; at most 64 KiB are ever pending |
| `ChecksumBody.ChecksumVerifyingBody.Read` | internal/compilecache/service.go:97-156 | For any buffer and any chunking it terminates, hands out the next bytes of the source or ends the stream for good, and until the digest of the whole is found right withholds at least the last min(length, 32 KiB) bytes read |
| `ChecksumBody.Drain` | internal/compilecache/service.go:97-156 | Read to its end with buffers of any size: an end of file means exactly the source with the right digest; a mismatch means the digest is wrong, the tail was withheld and the callback fired once; a reliable source gives end of file exactly if its digest is right |
| `ExactSize.ExactSizeReader.Read` | internal/cache/exact_size.go:67-114 | Never a byte past the declared size; end of file means the source had exactly that size and all of it was released; an ended stream stays ended |
| `ExactSize.ExactSizeReader.ValidateConsumed` | internal/cache/exact_size.go:120-139 | Accepts only a source of exactly the declared size that has been read to its end, and of a reliable source accepts each of those |
| `ExactSize.ExactSizeReader.Mismatch` | internal/cache/exact_size.go:57-65 | The mismatch becomes the terminal result |
| `KeyGate.MutualExclusion` | internal/cache/key_mutation_gate.go:57-154 | Two callers that hold the token of one key are the same caller, however often the entry was deleted and created again |
| `KeyGate.ReleaseNeverBlocks` | internal/cache/key_mutation_gate.go:143-154 | The channel is empty whenever somebody holds the token, so giving it back does not wait |
| `KeyGate.NothingLeaks` | internal/compilecache/key_lock.go:72-82 | A key has an entry exactly while somebody waits for it, holds it or is leaving it |
| `KeyGate.WaiterCanProceed` | internal/compilecache/key_lock.go:38-58 | With no holder the token is in the channel: a waiter can take it |
| `KeyGate.AcquireKeepsInv` | internal/compilecache/key_lock.go:25-36 | Finding or creating the entry keeps token, reference and map invariants |
| `KeyGate.MoveKeepsInv` | internal/cache/key_mutation_gate.go:57-141 | Taking the token, giving it back and giving up keep them |
| `KeyGate.LeaveKeepsInv` | internal/compilecache/key_lock.go:72-82 | Dropping a reference, and the entry with the last one, keeps them |
| `KeyGate.KeyedGate.Acquire` | internal/compilecache/key_lock.go:25-36 | The caller is counted on the entry of its key, created with a full channel if there is none |
| `KeyGate.KeyedGate.TryTake` | internal/compilecache/key_lock.go:60-70 | Succeeds exactly if the token is in the channel |
| `KeyGate.KeyedGate.Admit` | internal/cache/key_mutation_gate.go:57-141 | A caller cancelled after the receive gives the token back |
| `KeyGate.KeyedGate.SendToken` | internal/cache/key_mutation_gate.go:143-154 | The send of a release finds the channel empty |
| `KeyGate.KeyedGate.Cancel` | internal/cache/key_mutation_gate.go:57-141 | A cancelled waiter leaves without touching the token |
| `KeyGate.KeyedGate.Leave` | internal/cache/key_mutation_gate.go:143-154 | The last one out removes the entry |
| `KeyGate.KeyedGate.Unlock` | internal/cache/key_mutation_gate.go:57-141 | The first call releases completely, every later one changes nothing |
| `AuditChain.HashCommitsToHistory` | internal/audit/chain.go:49-74 | The hash of a chained row determines number, order and content of all chained rows up to it |
| `AuditChain.ChainStartIsUnique` | internal/audit/chain.go:163-221 | A table is well chained from one place only |
| `AuditChain.VerifyChain` | internal/audit/chain.go:163-221 | Accepts exactly the tables with an unchained prefix followed by an unbroken chain, for any page size; head and counts are exact, and a refusal names the first row that does not continue the chain and why: unchained after a chained one, linked to something else than the head, or with a hash that is not its own |
| `AuditChain.VerifyRow` | internal/audit/chain.go:175-213 | One row keeps the report right for the rows so far |
| `AuditChain.NextRow` | internal/audit/chain.go:175-213 | A well-chained table stays so with one more row exactly if that row links to the head, or is unchained and nothing is chained yet |
| `AuditChain.AppendKeepsTable` | internal/audit/chain.go:82-115 | Appending a batch on the current head keeps the table well chained, with the contents of the batch in order |
| `AuditChain.StaleHeadConflicts` | internal/audit/chain.go:117-143 | Rows built on a head that is no longer the last one collide with the row that took its place |
| `AuditChain.CurrentHeadFits` | internal/audit/chain.go:82-128 | Rows built on the current head collide with none |
| `AuditChain.RefusedExactlyWhenStale` | internal/audit/chain.go:82-143 | The unique index refuses an append exactly if its head is stale: the chain never forks |
| `AuditChain.LinksAreUnique` | internal/audit/chain.go:82-128 | No two rows of a chain share a link |
| `AuditChain.AuditLog.Insert` | internal/audit/chain.go:82-115 | A batch created on the current head extends the table by exactly its rows |
| `AuditChain.AuditLog.Attempt` | internal/audit/chain.go:82-128 | One transaction, with other writers around it, appends the whole batch as one block or nothing of it; with a working database it is refused only if others have appended meanwhile |
| `AuditChain.AuditLog.AppendAuditRows` | internal/audit/chain.go:82-115 | Over all retries: success means the batch is in the table once, as one block at the end; failure means none of it is; the table stays well chained and is only ever extended; with a working database it fails only if others have come first four times |
| `AuditChain.Build` | internal/audit/chain.go:94-103 | Linking a batch row by row gives the chain on its head |
| `AuditChain.CheckpointPinsHistory` | internal/audit/anchor.go:43-50 | A checkpoint found in a table that verifies fixes the chained rows up to it: number, order and content are those of when it was taken |
| `AuditChain.LoadCheckpoints` | internal/audit/anchor.go:329-362 | Exactly the well-formed lines with a hash are loaded, in their order; every other line is counted as invalid |
| `AuditChain.VerifyAnchors` | internal/audit/anchor.go:391-429 | Accepts exactly if every checkpointed row is there with its hash; otherwise names the first that is not; the latest checkpoint is the last one loaded |
| `AuditChain.First` | internal/audit/anchor.go:391-429 | The row with an id, if there is one |
| `AuditChain.VerifiedHistoryIsOriginal` | internal/audit/anchor.go:391-429 | When the chain verifies and all checkpoints are found, the history each of them saw is unchanged, complete and without additions |
| `Delivery.Parse` | internal/api/onboarding_delivery.go:38-67 | Accepts exactly the encodings, within the length limit, of well-formed cursors, and gives that cursor back |
| `Delivery.WellFormedIsShort` | internal/api/onboarding_delivery.go:33-36 | Every well-formed cursor, with any ids up to 2^53 - 1, encodes within the length limit of the parser |
| `Delivery.EmittedCursorIsWellFormed` | internal/api/onboarding_delivery.go:98-153 | A cursor that a page emits is well formed exactly if the bounds of its round are at most 2^53 - 1, and its watermarks do not move back |
| `Delivery.JoinedIsExact` | internal/api/onboarding_delivery.go:111-127 | The query result is exactly the joined pairs, ordered by audit id and access id |
| `Delivery.JoinedInFields` | internal/api/onboarding_delivery.go:111-121 | A pair is in the query result exactly if an audit row and an access row with its ids have the same non-empty request and package and the same ecosystem, the action is metadata or download, and it is not from before the start |
| `Delivery.SelectIsExact` | internal/api/onboarding_delivery.go:121-127 | The window keeps exactly the pairs with a side past the watermarks, within the bounds and after the last position, in order |
| `Delivery.PageDelivers` | internal/api/onboarding_delivery.go:130-140 | A page marks exactly its own pairs as delivered |
| `Delivery.PageKeepsExactlyOnce` | internal/api/onboarding_delivery.go:98-153 | A page keeps the record of what was given exactly-once with respect to the cursor |
| `Delivery.GrowthKeepsExactlyOnce` | internal/api/onboarding_delivery.go:98-111 | Rows added or pruned between pages change nothing of what has been delivered |
| `Delivery.RoundIsServed` | internal/api/onboarding_delivery.go:98-153 | Serving one page, at any split, keeps exactly-once delivery, order within the round and the watermarks |
| `Delivery.Observation.DeliveryPage` | internal/api/onboarding_delivery.go:98-153 | One request: at most a page, nothing given twice, the pages of a round in order throughout; while the round goes on its bounds are kept, and at its end, after however many pages, the watermarks are its bounds and everything within them has been given |
| `Delivery.Observation.Evolve` | internal/api/onboarding.go:80-110 | New rows with larger ids, and pruning, keep the client’s record exactly-once |
| `Delivery.CatchUp` | internal/api/onboarding_delivery.go:98-153 | A client that ends the round under way and then begins and ends one more comes to an end, whatever others write and prune meanwhile, and has then been given, exactly once, every pair past the start that was in the logs when it began and still is |
| `Delivery.Poll` | internal/api/onboarding_delivery.go:98-153 | Over any number of polls with logs changing in between: nothing is given twice, watermarks never move back, and once one round has been begun and ended, after however many pages, every pair past the start that was there at the beginning and still is has been given |
| `Delivery.Request` | internal/api/onboarding.go:80-185 | One poll, with the two maxima read at different moments: a round it begins takes in every pair that was there, a round it continues keeps its bounds and has strictly less left, and a round it ends has given everything within its bounds |
| `Delivery.LessRemains` | internal/api/onboarding_delivery.go:121-140 | A page leaves less of its round, and what others write or prune adds nothing to it: every round ends |
| `Delivery.SomeCursorIsRefused` | internal/api/onboarding_delivery.go:33-58 | With a bound of 2^53 a round ends in a cursor that the parser refuses |
| `StoragePath.PathIsInjective` | internal/cache/storagepath.go:29-38 | On a root that folds case, two keys whose paths agree even after lower-casing are the same key, provided the digest does not collide on their overflowing segments |
| `StoragePath.SegmentPathIsInjective` | internal/cache/storagepath.go:40-50 | The same for one segment, escaped or replaced by its digest |
| `StoragePath.SegmentPathText` | internal/cache/storagepath.go:40-50 | A digest segment starts with ~, no escaped segment does, and neither contains a slash |
| `StoragePath.KeyComesBack` | internal/cache/storagepath.go:57-70 | The key comes back from its path exactly if no segment became a digest; otherwise reading it back reports that |
| `StoragePath.DecodeOfEscape` | internal/cache/storagepath.go:72-100 | Unescaping inverts escaping on every byte string |
| `StoragePath.DecodeOfFoldedEscape` | internal/cache/storagepath.go:140-154 | Even the lower-cased escape determines the segment |
| `StoragePath.EscapeSegment` | internal/cache/storagepath.go:140-154 | The loop computes the escape that the round-trip lemmas are about |
| `StoragePath.UnescapeSegment` | internal/cache/storagepath.go:72-100 | The loop computes the partial inverse, refusing malformed and non-canonical escapes |
| `StoragePath.StoredPath` | internal/cache/storagepath.go:29-38 | The path of a key, segment by segment |
| `StoragePath.NoKeyReachesStaging` | internal/cache/local.go:116-152 | No valid key is stored at or below the reserved staging directory, nor under a name that folds to it |
| `StoragePath.SplitOfJoin` | internal/cache/storagepath.go:29-38 | Joining slash-free segments and splitting gives them back |
| `StoragePath.JoinOfSplit` | internal/cache/storagepath.go:57-70 | Splitting a path and joining gives it back |
| `Staging.CodecIsExact` | internal/cache/local.go:172-214 | A path yields a key exactly if it is the staging path of that key, for keys of any length |
| `Staging.PathsAreDisjoint` | internal/cache/local.go:172-185 | Two keys share a staging path only if equal, and no staging file is a directory on the way to another |
| `StagingGate.ActiveUploadsAreApart` | internal/cache/local.go:373-401 | Two uploads that are writing at the same time never write the same staging file, nor one below a file of the other |
| `StagingGate.WaitsForSomebody` | internal/cache/local.go:373-401 | An upload that waits does so for an upload of its key that is still writing, or its wait is over: no wake-up is lost |
| `StagingGate.BeginKeepsInv` | internal/cache/local.go:381-394 | Registering a key, or waiting for its channel, keeps one writer per key and one open channel per writer |
| `StagingGate.FinishKeepsInv` | internal/cache/local.go:403-422 | Ending an upload keeps that, and no directory of an upload under way is swept |
| `StagingGate.LocalStaging.Begin` | internal/cache/local.go:373-401 | Admitted exactly if no upload of the key is registered |
| `StagingGate.LocalStaging.MakeDirectory` | internal/cache/local.go:324-336 | A writing upload makes its staging directory |
| `StagingGate.LocalStaging.Finish` | internal/cache/local.go:403-456 | The first call closes the channel and, exactly if nobody else is writing, sweeps the directories that hold nothing; every later call does nothing |
| `Staging.DecodeOfEncode` | internal/cache/local.go:172-214 | Unpadded URL-safe base64 (section 5 of RFC 4648) round-trips every byte string |
| `Staging.ChunksOf` | internal/cache/local.go:172-185 | The 120-character chunks put together are the text; all but the last are full and none is empty |
| `Staging.MakeStagingPath` | internal/cache/local.go:172-185 | The chunking loop computes the staging path, and refuses exactly the invalid keys |
| `ResponseMetadata.SizeIsExact` | internal/cache/response_metadata.go:176-187 | The running size after admitting a value equals the length of the JSON encoding with that value |
| `ResponseMetadata.SanitizedFits` | internal/cache/response_metadata.go:108-174 | The admitted set encodes within 32 KiB, with at most 16 values per name, none longer than 8 KiB, none with a line break, and no Link value that leaves the host: the encoder’s guard never fires |
| `ResponseMetadata.ValuesAreExact` | internal/cache/response_metadata.go:127-151 | A value is considered for a name exactly if a field of that name has it, it is at most 8 KiB long, holds no line break, and stays on the host where that is asked for |
| `ResponseMetadata.EverythingFits` | internal/cache/response_metadata.go:158-172 | When all candidates fit together, all are admitted, whatever the order of admission |
| `ResponseMetadata.NothingMoreFits` | internal/cache/response_metadata.go:153-174 | Nothing is left out that would still fit: a candidate whose value is not admitted would take the encoding over 32 KiB |
| `ResponseMetadata.EarlierRoundsFirst` | internal/cache/response_metadata.go:153-174 | Later values of one name never crowd out earlier ones of another: if the first r candidates of every name fit together, each name keeps these, in their order |
| `ResponseMetadata.StillTooMuch` | internal/cache/response_metadata.go:176-187 | What does not fit at one time does not fit later |
| `ResponseMetadata.SanitizeIsIdempotent` | internal/cache/response_metadata.go:108-174 | Sanitizing a sanitized header changes nothing, although skipped values shift later ones to earlier rounds |
| `ResponseMetadata.CellComesBack` | internal/cache/response_metadata.go:225-258 | Decoding what was encoded gives exactly the sanitized header, for values that survive JSON; the cell is empty exactly if nothing was admitted |
| `ResponseMetadata.StandardIsWellNamed` | internal/cache/response_metadata.go:108-135 | The program’s list of names satisfies what the round-trip lemmas ask of names |
| `ResponseMetadata.HopByHop` | internal/cache/response_metadata.go:109-125 | Exactly the names nominated by a Connection header |
| `ResponseMetadata.Collect` | internal/cache/response_metadata.go:127-151 | The candidates of each name are its first sixteen admissible values, in order |
| `ResponseMetadata.AdmitRound` | internal/cache/response_metadata.go:158-172 | One round admits at most one value of each name and keeps the running size exact |
| `ResponseMetadata.Sanitize` | internal/cache/response_metadata.go:108-174 | The loops compute the sanitized set, and the running size they end with is its exact encoded length |
| `Retention.PercentIsExact` | internal/cache/retention.go:178-183 | percentOf is exactly floor(total * percent / 100) and at most the total; nothing on the way passes the total or 9900, whichever is more |
| `Retention.NoneAboveTotalExactlyIf` | internal/cache/retention.go:178-183 | No intermediate value passes the total exactly if (total mod 100) * (percent - 1) is at most the total rounded down to hundreds; always so from 9900 on |
| `Retention.SomeAboveTotal` | internal/cache/retention.go:178-183 | It does not hold of every input: 90 percent of 50 goes through 4500 |
| `Retention.ListedIsExact` | internal/cache/retention.go:415-568 | A listing holds exactly the rows asked for, in the order of the query |
| `Retention.EnoughIsShortest` | internal/cache/retention.go:415-568 | The second pass removes the shortest prefix of the least recently used rows that frees what is needed |
| `Retention.PagesAreTheItems` | internal/cache/retention.go:217-340 | The pages of a preview put together are the previewed entries, in order and complete |
| `Retention.BehindIsSuffix` | internal/cache/retention.go:217-340 | The keyset cursor of a row leaves exactly the rows after it |
| `Retention.CountLru` | internal/cache/retention.go:217-340 | Counting batch by batch gives the number and bytes of that shortest prefix |
| `Retention.DropIsExact` | internal/cache/retention.go:354-408 | Removing a row by id removes that row and no other |
| `Retention.TwoPasses` | internal/cache/retention.go:415-568 | The expiry pass followed by the least-recently-used pass removes exactly the predicted rows |
| `RetentionVictims.VictimsAreExact` | internal/cache/retention.go:415-568 | Row by row: unless an automatic reclaim is below the threshold, a row goes exactly if it expired in an earlier second, or the usage left is over the target, at the threshold or the reclaim automatic, and the unexpired rows last read before it hold less than the excess |
| `RetentionVictims.VictimsInOrder` | internal/cache/retention.go:415-568 | Expired rows go first, by expiry, then the others by last access, equal ones by id |
| `RetentionVictims.OlderIsBefore` | internal/cache/retention.go:510-548 | In a listing by access, what was last read before a row is exactly what stands before it |
| `Retention.Store.RemoveCandidate` | internal/cache/retention.go:354-408 | Object first, then row: what is reported as removed and reclaimed is exactly what left the store, whichever step fails |
| `Retention.Store.RemoveExpired` | internal/cache/retention.go:415-568 | The reported bytes are the drop in usage; no live row is touched; a working store removes the list in its order |
| `Retention.Store.RemoveLru` | internal/cache/retention.go:415-568 | The reported bytes are the drop in usage; a working store removes exactly the shortest sufficient prefix, in order |
| `Retention.Store.Reclaim` | internal/cache/retention.go:415-568 | In either mode the bytes reclaimed are usage before minus usage after; on a working store with all objects present exactly the predicted rows are removed, in the predicted order |
| `Retention.PreviewAll` | internal/cache/retention.go:217-340 | The pages of a preview, put together, are the rows a manual reclaim removes |
| `Retention.PreviewThenReclaim` | internal/cache/retention.go:217-568 | The concatenated pages of a preview are exactly, and in the same order, the entries that a manual reclaim at the same instant removes, and their bytes are what it reclaims |
| `Retention.Store.Figures` | internal/cache/retention.go:217-340 | The previewed counts and bytes are those of the second pass |
| `Retention.Store.PreviewPage` | internal/cache/retention.go:217-340 | Every page is the corresponding slice of the rows a manual reclaim at the same instant removes, with exact totals |

## Left out

- RestoreJournal.Campaign: the crash model is a stop of the process; power loss and the durability of unsynced renames are not modelled, because recovery does not re-sync the config directory.
- RestorePaths.NamesAreDistinctFiles: case folding is that of ASCII letters, and hard links, symbolic links and canonicalisation of directories are not modelled; the two targets are taken as already canonical.
- RestoreJournal.Disk.WriteJournal: the temporary name of the journal and its cleanup are not modelled; the rename that publishes it is.
- RestoreJournal.InstallJournaled: which saved copies are reported is exact, their order in the report is not; the lease and the SQLite check are steps that may fail, and that a reliable disk lets pass.
- KeyRevocation.RevocationIsSticky: the refresh that only verifies a suspicious upstream change (manager.go:1796-1855) commits without storing, and followers of a flight (manager.go:1277-1314) read without looking at the row again; both lie outside the claim.
- KeyProgress.ReadIsServed: the age of a row is not modelled; an expired entry of mutable metadata is fetched again instead of served, which appears as a read that fails. Followers and background refreshes of a served entry are not part of it.
- KeyProgress.StoreCompletes: stated, like the other results of KeyProgress and CompileProgress, for one process with nobody between its steps; what others can do to it meanwhile is what the lemmas over whole runs say.
- KeyRevocation.BodyAndMetadataMatch: generations are unbounded integers; a wrap of 64 bits is not modelled. A write that fails before it reaches the gate appears as one whose lock failed.
- PackageInvalidation.PackageCache.InvalidatePackage: entries are cleaned up in any order, not only sorted by key; failing closed may strike the keys independently of each other, which allows more runs than the program has.
- CompileRuns.ObjectsAreConserved: paths carry their artifact and a fresh generation instead of random parts, so that rows of different artifacts never share an object is a choice of the model; evictions appear as removals, and the immediate deletion after a commit may come after the gate is released, which allows more runs than the program has.
- CompileProgress.UploadCompletes: the bytes of the upload arrive in one piece; making room by eviction is CompileEviction.Service.ReserveCapacity.
- CompileReconcile.Startup.Reconcile: rows whose path does not belong to their artifact, which start-up also drops, cannot arise in the model; the objects that are too young are given as a set, and the positions in the walk stand for the ids of the rows.
- CompileRuns.LimitsHold: the limits do not change within a run; rows stored under wider ones are what EnforceLimits is for.
- EvictionRaces.RacingService.CleanupAmid: every write of a row is taken to move its time of update forward strictly, and others change the table only a finite number of times.
- CompileEviction.Service.CleanupTo: the set of busy keys is fixed for one run and nobody else changes a row during it; with such changes there is no fixed set of victims, and EvictionRaces.RacingService.CleanupAmid says what holds then. Timestamps are integers.
- ChecksumBody.Drain: closing the body and the slots that bound concurrent transfers are not part of this model.
- ExactSize.ExactSizeReader.Read: a wrapped reader that returns more bytes than it was asked for is not modelled.
- KeyGate.KeyedGate.Acquire: the error for an empty key and the checks of a context that is already done before the wait are not modelled; a caller cancelled at any later point is.
- AuditChain.AuditLog.AppendAuditRows: the canonical encoding of a row's fields into the hash input is taken as injective; database errors other than a lost race end the attempt.
- AuditChain.VerifyChain: errors of the database while scanning are not modelled.
- AuditChain.LoadCheckpoints: reading the file is a sequence of lines that parse or do not; the sinks that write checkpoints, and their retries, are not modelled.
- Delivery.Poll: the ids of both logs stay within 2^53 - 1; beyond that the server emits cursors that it does not accept back, as EmittedCursorIsWellFormed says.
- Delivery.Parse: base64 and JSON text are either the encoding of a cursor or other text of some length; that the encoder is injective is part of this.
- StoragePath.PathIsInjective: SHA-256 is a parameter that is assumed not to collide on the segments at hand.
- Staging.CodecIsExact: stated for exact strings only, since base64 is not injective up to case.
- ResponseMetadata.CellComesBack: reading older cells whose validators sit in columns of their own (response_metadata.go:260-272) and the parsing of Link targets, a parameter here, are left out.
- Retention.Store.Reclaim: staged uploads, failures to measure the usage and other writers during a pass are not modelled; rows have storage paths of their own. Races with the removal of one entry are part of KeyProtocol.
- StagingGate.LocalStaging.Begin: the check of a context that is done before the wait, and the removal of staging files left by a crash (local.go:596-687), are not modelled.
- Hit counters, metrics, observers, touches, the writability probe, miss streams, timers, access-log rollups, audit forwarding and the login limiter are left out: they touch none of the state above or would add only easy members.
- S3, HTTP handlers, the command line, configuration and the web interface are left out: plumbing.
