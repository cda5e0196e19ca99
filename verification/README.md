# sqlite_heap: a model of the storage layer and its transaction protocol

sqlite_heap is a Postgres table access method that keeps each relation in a SQLite file of its own. Postgres
assigns xids, writes the commit log, takes snapshots and numbers commands; SQLite holds the rows, each with
the stamps `xmin`, `cmin`, `xmax`, `cmax`. The SQLite transaction of a relation is opened by the first write,
committed at PreCommit (before the Postgres commit record) and rolled back at Abort. Between the two engines
there is no atomic commit; visibility rules over the commit log are meant to hide the difference. This project
models that arrangement and proves what it guarantees over whole interleaved runs, with crashes and failed
COMMITs anywhere, and exactly where it stops doing so.

| module | contents |
|---|---|
| `Xids`, `Tids` | 32-bit xids in three orders; packing of rowids into `(block, offset)` |
| `Storage` | one relation's `storage` table and vacuum watermark, and the statements on them |
| `Visibility` | `row_visible` for each snapshot kind |
| `Protocol` | backends, files, commit log and crash as one state machine; the reference `Replay`, which carries out the logical history on an empty plain table |
| `Invariants` | what every step keeps; the central one says that every stored copy reproduces the history from every point of view it has to serve |
| `Snapshots` | snapshot meaning and stability, durability, crash recovery, vacuum safety, watermark |
| `PlainTable` | one transaction's commands refine operations on a bag of tuples |
| `TransactionEnd`, `Backends`, `Savepoints` | how a transaction or subtransaction ends, in the Rust implementation and the Zig port |
| `Statements` | cached statements that are left part-way, and the stale reads they cause |
| `Rowids` | when a rowid is issued twice |
| `Scans`, `AccessPaths`, `IndexPath` | sequential, TID-range, bitmap and index access, and their agreement over runs |
| `IndexDelete`, `Cluster` | bottom-up index deletion; CLUSTER |
| `Limits` | concrete runs in which a promise fails |

How to read the theorems: `Init`, `Enabled`, `Next` and `Reaches` define runs over any number of relations
and backends. `Seen` applies the visibility code to the copy that a backend reads. `Replay` knows
nothing about stamps or versions. Theorems about runs equate the two.

A run is called clean (`CleanRun`) if each of its vacuums removes only dead rows: rows whose deleter
committed or whose inserter aborted. `VacuumKeepsInvIff` shows that this is exactly what a vacuum must do.
`FailureFreeRunsAreClean` shows that this is automatic until the first crash or failed COMMIT;
`VacuumAfterCrashLosesARow` shows that it is not automatic afterwards, because `vacuum_dead` does not ask
whether `xmax` committed.

Where the source's comments promise more than its code does, the model follows the code:

- "self-heals" (`src/sqlite.rs:534-538`) holds for every snapshot as long as no vacuum after the failure removes a row that is not dead, and for index scans as long as no index is built on such a row (`VacuumAfterCrashLosesARow`, `IndexMissesARow`).
- `on_precommit` in Rust empties the list of touched relations before it commits them, so that the abort after a failed COMMIT rolls nothing back (`RustLateAbortRollsNothingBack`, `FailedCommitLeaks`, `EndRust`); the Zig port is clean (`ZigEndsClean`, `EndZig`).
- Savepoints undo an aborted subtransaction only on relations that were touched before it (`AbortUndoesIff`).
- `fetch_one_ref` in Rust leaves its statement part-way through after a hit (`RustReadIsFreshIff`, `RustReadsStale`).
- A row of another backend that SQLite has not committed yet is reported deletable by `index_delete_tuples` as "vacuumed" (`DeletionErrsIff`, `SeenRowLooksGone`).
- `update_row` inserts the new version even if the old row was already stamped; the history then records an insertion only (`UpdateReplacesIff`, `BothUpdatesSurvive`).
- A rowid is issued again once the highest one is gone (`InsertReissuesIff`, `RowidIsReissued`).

## Model

| member | source | states |
|---|---|---|
| `Xids.BindRoundTrip` | src/sqlite.rs:350-355 | every one of the 2^32 xids survives being bound as a signed integer and read back; binding is injective and maps only 0 to 0 |
| `Xids.UpperHalfIsNegative` | src/sqlite.rs:350-355 | which integer is stored for which xid |
| `Xids.SpecialXidsComeFirst` | src/tam.rs:372-384 | special xids precede every normal one, so that the invalid xid is a neutral start for the newest one |
| `Xids.SqlOrderIsModularIff` | src/sqlite.rs:870-871 | for normal xids, the signed SQL comparison is modular precedence if and only if the signed difference does not overflow 32 bits |
| `Xids.OrdersCoincide` | src/sqlite.rs:859-879 | below 2^31 the signed order of the DELETE, the unsigned order of the watermark and Postgres' modular order are one order |
| `Xids.WindowOrder` | src/tam.rs:369-384 | inside one half-range window modular order is the order of ages |
| `Tids.PackingIsABijection` | src/ffi.rs:121-133 | rowids 1 to 256*(2^32-1) and tuple ids with offsets 1 to 256 correspond one to one, both round trips |
| `Tids.PackingPreservesOrder` | src/ffi.rs:121-133 | rowid order is tuple-id order |
| `Tids.Carried` | src/ffi.rs:121-126 | the tuple id into which any bound carries over has an offset of 1 to 256 |
| `Tids.BoundIsCarried` | src/tam.rs:210-211 | every bound decodes to the rowid of the tuple id that it carries over into; it stays in its block if and only if its offset is 1 to 256, and offset 0 goes to the last row of the block before |
| `Tids.CarriedOrder` | src/tam.rs:203-229 | comparing rowids with a decoded bound is comparing tuple ids with the one it carries over into, for every bound |
| `Tids.FirstTids` | src/ffi.rs:112-133 | the tuple ids of the first and the last rowids, and what offset 65535 decodes to |
| `Tids.LowerBoundExactIff` | src/tam.rs:203-229 | a lower bound selects as tuple-id order would if and only if its offset is 1 to 257, it is `(0,0)`, or it lies past the last tuple id |
| `Tids.UpperBoundExactIff` | src/tam.rs:203-229 | an upper bound does if and only if its offset is at most 256 or its block is the last one or beyond |
| `Storage.NextRowid` | src/sqlite.rs:321-322 | without AUTOINCREMENT a new rowid is unused and above all that are present |
| `Storage.RowsUpToIsOrdered` | src/sqlite.rs:686-703 | reading up to a rowid lists exactly the rows up to it, ascending |
| `Storage.SelectAllIsExact` | src/sqlite.rs:686-703 | a full read lists each physical row once, in rowid order, and nothing else |
| `Storage.InsertBatchIsExact` | src/sqlite.rs:661-682 | a batch adds one unstamped row for each tuple, in order, under new increasing rowids, and changes no other row |
| `Storage.StampCounts` | src/sqlite.rs:791-805 | the returned count is the number of rows changed, 1 exactly for an unstamped row, and no other row changes |
| `Storage.DeleteCounts` | src/sqlite.rs:842-852 | the row is gone, no other is touched, and the count is the number of rows removed |
| `Storage.VacuumCounts` | src/sqlite.rs:859-879 | the returned count is the number of rows removed |
| `Visibility.XidViewByScan` | src/visibility.rs:125-147 | the walk over `xip` computes the three-valued verdict |
| `Visibility.DirtySnapshot.Visible` | src/visibility.rs:83-115 | verdict and reported xids are those of the row at hand, whatever an earlier row left in the snapshot |
| `Visibility.DirtyVerdicts` | src/visibility.rs:78-115 | one dirty snapshot put to row after row, whatever its fields held at first, reports for each row what that row alone calls for |
| `Visibility.MvccAgreesWithSelf` | src/visibility.rs:39-76 | a snapshot taken now, past every own command, decides like SnapshotSelf |
| `Visibility.DirtyAgreesWithSelf` | src/visibility.rs:64-115 | visible with no inserter reported iff SnapshotSelf sees the row; the inserter is reported exactly when it runs in another transaction, the deleter exactly when the row is visible and it runs in another transaction |
| `Visibility.DirtyAnticipatesInserter` | src/visibility.rs:83-115 | SnapshotDirty is SnapshotSelf in the world in which the running inserter has committed |
| `Visibility.TopLevelXidsOnlyIff` | src/visibility.rs:138-146 | a committed xid is classified as the snapshot means it if and only if it was not a running subtransaction, since only `xip` is read |
| `Protocol.ExecAppend` | src/sqlite.rs:519-546 | runs compose |
| `Protocol.FirstRunning` | src/visibility.rs:134-136 | the `xmin` of a new snapshot is the oldest running xid |
| `Protocol.Others` | src/visibility.rs:140-145 | the `xip` of a new snapshot lists exactly the running xids of others |
| `Invariants.InsertShows` | src/sqlite.rs:646-659 | an insert adds one row to the table of exactly those views that see its xid and command |
| `Invariants.StampHides` | src/sqlite.rs:791-805 | a stamp removes one row from the table of exactly those views that see it |
| `Invariants.VacuumHidesNothing` | src/sqlite.rs:859-879 | a vacuum is invisible to a view that sees none of the reclaimed rows |
| `Invariants.VacuumKeepsStore` | src/sqlite.rs:859-879 | after a vacuum, run or skipped, no stamp lies below horizon or watermark, and the watermark never falls |
| `Invariants.NothingPendingAtCommit` | src/sqlite.rs:534-539 | when Postgres writes a commit record, no SQLite transaction still holds work of that xid |
| `Invariants.WriteReproduces` | src/sqlite.rs:646-879 | from any point of view, each statement changes the stored rows as it changes the replayed table |
| `Invariants.RetractReproduces` | src/sqlite.rs:842-852 | physically deleting the own speculative row is a logical delete in every view |
| `Invariants.RetractLeavesNothing` | src/tam.rs:435-448 | a retracted speculative row is physically gone and every other row stays |
| `Invariants.StaysFaithful` | src/sqlite.rs:130-159 | COMMIT, ROLLBACK and loss of a connection keep a file faithful to the history |
| `Invariants.RollbackLosesAborted` | src/sqlite.rs:609-621 | what an abort, a failed COMMIT or a crash rolls back belongs to aborted transactions |
| `Invariants.StepKeepsOrder` | src/sqlite.rs:519-621 | every step, crashes included, keeps xids, stamps, watermarks and pending work consistent |
| `Invariants.StepKeepsInv` | src/sqlite.rs:519-621 | every clean step keeps each copy of each relation a reproduction of the history |
| `Invariants.InitHasInv` | src/sqlite.rs:318-335 | empty files satisfy the invariant |
| `Invariants.RunKeepsOrder` | src/sqlite.rs:519-621 | the consistency of stamps and watermarks over every run |
| `Invariants.RunKeepsInv` | src/sqlite.rs:519-621 | the whole invariant over every clean run with any crashes and failures |
| `Snapshots.RunKeepsSince` | src/visibility.rs:125-147 | how the commit log, history and own xid may have moved on since a snapshot was taken |
| `Snapshots.XidViewMeaning` | src/visibility.rs:125-147 | the verdict on an xid, given at any later time, tells what had committed when the snapshot was taken |
| `Snapshots.SeenIsVisible` | src/visibility.rs:39-60 | `visible_mvcc` decides every stored row as the snapshot's point of view does |
| `Snapshots.CopyReproduces` | src/visibility.rs:39-60 | the copy that a reader uses reproduces the history for its snapshot |
| `Snapshots.ReachedIsOrdered` | src/sqlite.rs:519-621 | every reachable state is consistent |
| `Snapshots.ReachedHasInv` | src/sqlite.rs:519-621 | every cleanly reachable state satisfies the invariant |
| `Snapshots.SnapshotMeaning` | src/visibility.rs:39-147 | in every clean run from the start, a snapshot sees exactly the transactions committed when it was taken and own earlier commands, and no later step of anybody changes that |
| `Snapshots.SnapshotMeaningFrom` | src/visibility.rs:39-147 | the same from any state that satisfies the invariant |
| `Snapshots.DurableAtEveryInstant` | src/sqlite.rs:533-540 | at every instant the contents committed to SQLite reproduce every Postgres-committed transaction, in every relation |
| `Snapshots.CrashSelfHeals` | src/sqlite.rs:533-540 | a crash at any instant, also between two relations' COMMITs: the first snapshot after recovery sees exactly the committed transactions |
| `Snapshots.FailureHeals` | src/sqlite.rs:595-621 | from any invariant state, after a crash or a failed COMMIT the next transaction sees exactly what had committed |
| `Snapshots.FirstFailureHeals` | src/sqlite.rs:595-621 | the same for the first crash or failed COMMIT of a run, with no condition on its vacuums |
| `Snapshots.VacuumIsClean` | src/sqlite.rs:859-879 | while no aborted xid has stamped a copy, a vacuum removes only rows whose deleter committed, hence only dead ones |
| `Snapshots.FailureFreeRunsAreClean` | src/sqlite.rs:609-621 | until the first failure every stored stamp is running or committed, hence every vacuum is clean |
| `Snapshots.VacuumNeverShows` | src/tam.rs:623-632 | in failure-free runs, vacuums at horizons up to a snapshot's xmin, and everything else that others do, leave what it sees unchanged |
| `Snapshots.VacuumHarmlessIff` | src/sqlite.rs:870-871 | in any ordered state, no point of view that may still arise (it knows the commits below the horizon and counts no aborted xid) loses a row to a vacuum if and only if each row below the horizon is dead: deleter committed or inserter aborted |
| `Snapshots.VacuumKeepsInvIff` | src/sqlite.rs:870-871 | a vacuum keeps the invariant if and only if it is clean, so the hypothesis of the run theorems is exact |
| `Snapshots.NotDeadIsNeeded` | src/sqlite.rs:870-871 | a reclaimed row that is not dead, and the point of view that loses it |
| `Snapshots.WatermarkSound` | src/sqlite.rs:854-879 | in every reachable state no stamp lies below the watermark of its copy; after a vacuum, run or skipped, none lies below the horizon in the copy that its backend reads; rollback restores rows and watermark together |
| `Snapshots.KindsAgree` | src/visibility.rs:25-115 | in every reachable state, through `row_visible`: what SnapshotSelf, a fresh MVCC snapshot, SnapshotDirty, SnapshotAny and SnapshotNonVacuumable see of each row a backend can read, in terms of who has committed and who is running, and exactly which running xids are reported |
| `PlainTable.BackendRefinesPlainTable` | src/sqlite.rs:791-838 | from every reachable state, for any commands of a backend that name unstamped rows it reads, the bag of tuples that its next snapshot reads is what the same commands make of the plain bag it read before |
| `PlainTable.NextCommandStartsClean` | src/visibility.rs:39-60 | in every run, when a backend moves on to its next command, nothing it reads was written at that command id |
| `PlainTable.ReadsAreVisible` | src/visibility.rs:39-60 | `visible_mvcc` under a snapshot taken now selects what the current command's point of view sees |
| `PlainTable.CommandsInMachine` | src/sqlite.rs:646-838 | a backend's commands are enabled one after the other and make of its copy what the storage statements make of it |
| `PlainTable.PerformOnTable` | src/sqlite.rs:809-838 | what one command does to the table that the next command sees, by rowid |
| `PlainTable.RowsAreKept` | src/sqlite.rs:791-805 | one command keeps all rows but for a missing stamp and adds one row for an insert or update |
| `PlainTable.PerformAllKeepsRows` | src/sqlite.rs:791-838 | over any commands `xmin`, `cmin` and bytes never change, a stamp is set at most once, and rows grow by inserts plus updates |
| `PlainTable.UpdateReplacesIff` | src/sqlite.rs:809-838 | an update replaces the old row for the next command if and only if that row was unstamped or not visible |
| `Limits.VacuumAfterCrashLosesARow` | src/sqlite.rs:870-871 | a run with a crash before the commit record in which a vacuum removes a committed row that was never deleted: the history has it, the next snapshot does not |
| `Limits.IndexMissesARow` | src/tam.rs:701-768 | a run with a crash before the commit record, after which an index built on the relation has no entry for a committed row that a scan reads |
| `Limits.RowidIsReissued` | src/sqlite.rs:321-322 | a run in which an aborted insert's rowid is issued again, so that an index lookup of the aborted tuple finds the other row and a filtered scan finds none |
| `Limits.SeenRowLooksGone` | src/tam.rs:361-368 | a run in which a backend reads its own uncommitted row while another one reports it deletable |
| `Limits.FailedCommitLeaks` | src/sqlite.rs:595-621 | a run over two relations whose second COMMIT fails: in Rust the backend rests with an empty list, the second SQLite transaction open and other writers shut out; in the Zig port nothing stays open |
| `Limits.BothUpdatesSurvive` | src/tam.rs:501-528 | a run in which two transactions read and update the same row and both new versions end up committed |
| `Rowids.InsertReissuesIff` | src/sqlite.rs:321-322 | in every reachable state, the next insert reissues a rowid if and only if the highest rowid ever issued is no longer physically present |
| `Rowids.RunKeepsLedger` | src/sqlite.rs:646-659 | over every run stored rowids have been issued, and rowids are issued without gaps |
| `Rowids.RunIsFreshIff` | src/sqlite.rs:321-322 | a run issues no rowid again if and only if it never inserts while the highest one issued is gone |
| `Rowids.StatementIssues` | src/sqlite.rs:646-838 | a statement issues the rowid above the largest present if it inserts, and otherwise none |
| `TransactionEnd.StepKeepsTidy` | zig/src/sqlite.zig:288-341 | every step keeps each open SQLite transaction on its backend's list |
| `TransactionEnd.RunKeepsTidy` | zig/src/sqlite.zig:288-341 | and so does every run |
| `TransactionEnd.ZigEndsClean` | zig/src/sqlite.zig:318-341 | in every run, a backend between transactions has touched nothing and holds no SQLite transaction |
| `TransactionEnd.RunKeepsRustForgets` | src/sqlite.rs:595-607 | from PreCommit on the Rust list is empty |
| `TransactionEnd.RustRunKeepsListed` | src/sqlite.rs:595-621 | before its first error after PreCommit, a backend will still commit or roll back every SQLite transaction it has open |
| `TransactionEnd.RustLateAbortRollsNothingBack` | src/sqlite.rs:595-621 | in every run, any error after PreCommit began leaves every file and every open SQLite transaction as it was, with the list empty: the end is clean if and only if nothing was open |
| `TransactionEnd.RustLeaksIff` | src/sqlite.rs:595-621 | the first such error of a backend leaves open exactly the SQLite transactions of relations that PreCommit had not visited |
| `TransactionEnd.ReadingNeverOpens` | src/sqlite.rs:130-137 | a run that only reads never opens a SQLite transaction |
| `TransactionEnd.TouchedIsUsed` | src/sqlite.rs:519-546 | in every run, the list on which commit and abort act is exactly the relations used since the transaction began |
| `Savepoints.Find` | src/sqlite.rs:587-593 | RELEASE and ROLLBACK TO act on the most recent savepoint of that name |
| `Savepoints.InnermostIsFound` | src/sqlite.rs:587-593 | leftover savepoints never hide that of the innermost open subtransaction |
| `Savepoints.EventSimulated` | src/sqlite.rs:566-593 | each event keeps the stack and the nested model in correspondence |
| `Savepoints.EventsSimulated` | src/sqlite.rs:566-593 | and so does every well-nested sequence |
| `Savepoints.SavepointsRefineNesting` | src/sqlite.rs:548-593 | for every well-nested sequence, the working copy is what nested transactions prescribe |
| `Savepoints.FreshSimulates` | src/sqlite.rs:566-585 | a connection without savepoints corresponds to a nested model without frames |
| `Savepoints.RollbackToRepeats` | src/sqlite.rs:591-593 | ROLLBACK TO leaves its savepoint behind, so that it undoes later work again |
| `Savepoints.TouchedIsUndone` | src/sqlite.rs:591-593 | aborting a subtransaction undoes whatever it and its own subtransactions did to a relation touched before |
| `Savepoints.UntouchedKeepsWork` | src/sqlite.rs:566-585 | a relation touched late keeps the aborted work |
| `Savepoints.AbortUndoesIff` | src/sqlite.rs:566-593 | aborting undoes every possible body if and only if the relation was touched before the subtransaction started |
| `Backends.FindNextRowid` | src/sqlite.rs:646-659 | the loop over the keys finds the rowid that SQLite issues |
| `Backends.Backend.constructor` | src/sqlite.rs:24-48 | a new backend has no connection and nothing touched |
| `Backends.Backend.EnsureInXact` | src/sqlite.rs:519-546 | puts the relation on the list, opens no SQLite transaction |
| `Backends.StepInserts` | src/sqlite.rs:661-682 | the stepping loop makes of the contents what `InsertBatch` makes of them, and returns its rowids |
| `Backends.ApplyTakesEffect` | src/sqlite.rs:566-593 | each callback does to a connection what its event does to nested transactions: contents stay at start and commit, and are restored at abort |
| `Backends.EndsTakeEffect` | src/sqlite.rs:130-159 | COMMIT makes the work durable and ROLLBACK restores what is committed; nothing stays open |
| `Backends.Backend.InsertRows` | src/sqlite.rs:661-682 | starting from the own work in a transaction, else from the file, one new row for each tuple and nothing else changed; what is committed stays |
| `Backends.Backend.Delete` | src/sqlite.rs:791-805 | stamps exactly an unstamped row of the own work or the file and reports how many rows it stamped |
| `Backends.Backend.Update` | src/sqlite.rs:809-838 | stamp if possible, then insert in any case |
| `Backends.Backend.Vacuum` | src/sqlite.rs:854-879 | new contents and number of rows removed; a skipped vacuum opens no transaction |
| `Backends.Backend.OnSubtransaction` | src/sqlite.rs:548-593 | in whatever order the set is walked, each touched connection goes through its event as nested transactions do, and no other changes |
| `Backends.Backend.OnAbort` | src/sqlite.rs:609-621 | on every touched relation the committed contents are restored, others stay as they are, the list is empty |
| `Backends.Backend.OnPrecommitZig` | zig/src/sqlite.zig:318-326 | on every visited relation the work is in the file; it fails exactly when a touched open relation's COMMIT does, with the list intact |
| `Backends.Backend.OnPrecommitRust` | src/sqlite.rs:595-607 | the same, but the list is empty and on failure a transaction stays open |
| `Backends.Backend.EndZig` | zig/src/sqlite.zig:318-341 | relations committed before the first failure are durable, the other touched ones are undone, and nothing stays open |
| `Backends.Backend.EndRust` | src/sqlite.rs:595-621 | relations committed before the first failure are durable, all others stay as they were, and nothing stays open if and only if every COMMIT succeeded |
| `Statements.RunCall` | src/sqlite.rs:768-787 | the stepping and resetting loop has the specified effect on the connection's statements and reads the specified version |
| `Statements.ZigCallFinishes` | zig/src/sqlite.zig:490-530 | a Zig call leaves its own statement finished and disturbs no other |
| `Statements.ZigReadsAreFresh` | zig/src/sqlite.zig:644-681 | after any interleaving with commits of others, the next read sees everything committed |
| `Statements.RustReadIsFreshIff` | src/sqlite.rs:768-787 | after any interleaving of own calls with commits of others, a read is fresh if and only if no other statement was left part-way by a hit or nobody has committed since those statements took their view |
| `Statements.LeftMeaning` | src/sqlite.rs:777-785 | a statement is left part-way exactly when its last call hit |
| `Statements.RustReaderAfter` | src/sqlite.rs:768-787 | which statements are part-way and how old their view is, told from the events alone |
| `Statements.RustLeavesActiveIff` | src/sqlite.rs:777-785 | exactly the lookups that hit leave a statement part-way |
| `Statements.RustReadsStale` | src/sqlite.rs:777-785 | a hit, a commit elsewhere, and the next sequential scan misses the commit |
| `Scans.ListsOnce` | src/tam.rs:169-186 | there is only one listing of a table in rowid order |
| `Scans.WantedIsOrdered` | src/tam.rs:169-186 | filtering an ascending read keeps it ascending and selects exactly the wanted rows |
| `Scans.WantedLists` | src/tam.rs:169-186 | filtering a read that holds the table lists the table |
| `Scans.OffsetsInBlock` | src/tam.rs:833-907 | the offsets enumerated for a lossy page are distinct, in range, and cover every row of the block |
| `Scans.Cursor.constructor` | src/tam.rs:41-72 | a new cursor has loaded nothing |
| `Scans.Cursor.EnsureLoaded` | src/tam.rs:32-39 | the first call reads, later calls find the cache |
| `Scans.Cursor.Advance` | src/tam.rs:169-186 | the next wanted row from the position on, none skipped |
| `Scans.Cursor.Rescan` | src/tam.rs:144-155 | back to the first cached row |
| `Scans.Cursor.GetNext` | src/tam.rs:169-186 | each call emits the next row of the listing, or reports that it is complete |
| `Scans.Cursor.Scan` | src/tam.rs:157-186 | a scan terminates and emits the table, each row once, in rowid order, whenever the cache was filled |
| `Scans.Cursor.NextBitmapTuple` | src/tam.rs:833-907 | each call emits one remaining row and takes precisely that one off, with a measure on pages and offsets left and each page counted under its own kind |
| `Scans.Cursor.DrainOne` | src/tam.rs:852-870 | one offset of the page takes exactly its rowid off the remaining ones |
| `Scans.Cursor.PullPage` | src/tam.rs:871-906 | the next page, exact or lossy, changes nothing about which visible rows remain, and is counted under its own kind |
| `Scans.BitmapScan` | src/tam.rs:833-907 | over any mix of pages, each visible row in the bitmap is emitted exactly once and nothing else is |
| `Scans.TidRangeSelects` | src/tam.rs:203-229 | comparing rowids selects the rows between the tuple ids into which the bounds carry over, and with exact bounds the rows between the bounds |
| `Scans.TidRangeScan` | src/tam.rs:188-229 | for any bounds, exactly the visible rows between the tuple ids into which they carry over, in tuple-id order; for exact bounds, the rows between the bounds |
| `Scans.ScanTwice` | src/tam.rs:144-186 | a scan and its rescan emit the same rows in the same order |
| `AccessPaths.SeenAt` | src/visibility.rs:39-147 | at every moment of a run a usable snapshot sees what it stands for |
| `AccessPaths.VerdictIsTimeless` | src/tam.rs:169-186 | a row read at one moment and judged at a later one gets the verdict that the snapshot stands for |
| `AccessPaths.ScanReadsAreGood` | src/tam.rs:33-39 | whenever the rows are loaded and judged, exactly the snapshot's rows are picked |
| `AccessPaths.SnapshotScanTwice` | src/tam.rs:144-186 | amid a run, scan and rescan emit the snapshot's rows byte for byte, also while the command itself inserts |
| `AccessPaths.SnapshotTidRangeScan` | src/tam.rs:188-229 | the same amid a run, for the rows that the snapshot stands for |
| `AccessPaths.BitmapReadsAreGood` | src/tam.rs:833-907 | amid a run, fetches and cached rows give the snapshot's table |
| `AccessPaths.SnapshotBitmapScan` | src/tam.rs:833-907 | amid a run, a bitmap scan emits exactly the snapshot's rows that are in the bitmap, once each |
| `IndexPath.BuildIndex` | src/tam.rs:701-768 | entries for exactly the unstamped rows, and the number of those rows |
| `IndexPath.StatementOnRow` | src/sqlite.rs:646-879 | what any statement can do to one row: keep it, set a missing stamp, or insert it |
| `IndexPath.RunKeepsDescends` | src/tam.rs:701-768 | over every run each stored row was inserted since the build, or was there with the same tuple and inserter and kept a committed stamp |
| `IndexPath.RunKeepsNewStamps` | src/sqlite.rs:791-805 | over every run a stamp not yet committed to SQLite belongs to a pending xid |
| `IndexPath.RunKeepsRooted` | src/sqlite.rs:646-659 | over every run each stored row goes back to an insertion of its tuple in the history |
| `IndexPath.EntryIff` | src/tam.rs:250-285 | the index leads from a key to a stored row if and only if the row has the key and was not passed over at build time for a stamp |
| `IndexPath.BuiltEntries` | src/tam.rs:701-768 | the entries of the build are exactly those of its unstamped rows |
| `IndexPath.DeadStaysDead` | src/tam.rs:701-768 | a row that was dead when the index was built is not seen by any later snapshot |
| `IndexPath.IndexAgreesFrom` | src/tam.rs:250-285 | the same for every row that a later snapshot sees, over runs; if all rows stamped at build time were dead, none of those was passed over |
| `IndexPath.IndexScanIsFilteredScanIff` | src/tam.rs:250-285 | from the start: an index scan for a key reads the rows of a sequential scan filtered by it if and only if none of those was stamped at build time, and so it does whenever every row stamped then was dead |
| `IndexDelete.SelectXmaxBatch` | src/sqlite.rs:708-743 | exactly the requested rows that exist, with their stamps |
| `IndexDelete.NewestExtends` | src/tam.rs:376-384 | following the newest xid keeps it newest within a window |
| `IndexDelete.NewestIsHorizon` | src/tam.rs:376-384 | the newest of the removed xids is what the caller needs, told from the candidates |
| `IndexDelete.IndexDeleteTuples` | src/tam.rs:331-395 | marks exactly the slots of rows that are gone or have a committed stamp before the horizon; reports 0 iff there is none; the returned xid is a reclaimed row's, 0 if there is none, and no reclaimed row's follows it within a window |
| `IndexDelete.WorkReproduces` | src/visibility.rs:39-60 | the working copy shows to a usable snapshot what the reader's own copy shows |
| `IndexDelete.DeletionErrsIff` | src/tam.rs:342-394 | over runs, a row that a usable snapshot sees is reported deletable if and only if it is the own insertion of the snapshot's backend in a SQLite transaction still open, another backend asks, and SQLite has committed no row or a dead one under that rowid |
| `IndexDelete.OthersRowIsInBase` | src/tam.rs:361-368 | a visible row that is not the writer's own is committed to SQLite and not dead |
| `IndexDelete.DeletedIsInvisible` | src/tam.rs:342-394 | over runs, whoever is writing, no row reported deletable is seen by a usable snapshot, unless the snapshot's own backend has uncommitted work and another one asks |
| `Cluster.CopyForCluster` | src/tam.rs:586-621 | the copy is what a full read of an empty relation returns after inserting exactly the unstamped rows in order; live plus dead is the number of physical rows |
| `Cluster.InsertsFill` | src/sqlite.rs:646-659 | inserting tuples into an empty relation gives rows 1, 2, ... in order, each with the given stamp |
| `Cluster.LiveIsSeen` | src/tam.rs:598-620 | on settled rows the latest snapshot sees exactly the unstamped ones |
| `Cluster.AllOfCopyIsSeen` | src/tam.rs:598-620 | a later command of the copying transaction sees the whole copy |
| `Cluster.ClusterPreservesMeaning` | src/tam.rs:598-620 | the latest snapshot sees the same sequence of tuples in the new relation as in the old |
| `Cluster.RowSurvivesIff` | src/tam.rs:605-612 | a row's fate in the copy matches its visibility if and only if its inserter and deleter are settled as its stamp suggests |

## Left out

- TRUNCATE (`reset`): it removes rows physically, so visibility by xid cannot mask it, and the snapshot and crash theorems do not cover it.
- DROP and the deferred unlinking of files, schema installation and migration, PRAGMAs, paths and listings: input and output.
- The layout of heap tuples, slots and other foreign memory: a tuple is a sequence of bytes.
- `tuple_lock`, `tuple_get_latest_tid`, `index_validate_scan`, parallel scans, ANALYZE, TABLESAMPLE and planner estimates: stubs or single branches.
- Historic snapshots, whose semantics live in Postgres; SNAPSHOT_NON_VACUUMABLE is in `RowVisible` without a theorem of its own.
- The ports of `tam` and `visibility` to Zig and the LLVM-IR port: no property that the others do not have.
- Subtransactions in the interleaved machine: all stamps there are top-level xids. `TopLevelXidsOnlyIff` says what goes wrong with others, and `Savepoints` treats subtransactions for each connection.
- Xids from 2^31 up in the machine: runs end before, since there SQL order and modular order part (`SqlOrderIsModularIff`). Postgres is taken never to reissue an xid after recovery.
- Stale reads in the machine: `Protocol.CopyOf` reads what SQLite has committed, which the Zig port guarantees (`ZigReadsAreFresh`) and the Rust implementation does not always.
- A failing ROLLBACK, which the source only warns about, and a failing SAVEPOINT statement.
- The window between the Postgres commit record and the removal of the transaction from the list of running ones: they are one step.
- `LateAbort` stands both for a failed SQLite COMMIT and for an error that Postgres itself raises after PreCommit.
- Retrying after SQLITE_BUSY: a write step waits until no other backend holds a transaction on the file.
- The little-endian encoding of the watermark in `meta`, where an absent entry reads as 0; 64-bit rowids and 32-bit command ids are unbounded here; counts kept as floating point are natural numbers.
- The `recheck` flag of bitmap pages, and rescans of bitmap scans, for which `scan_rescan` resets the wrong position.
- The bitmap and index scans of the executor beyond the calls into the access method.
- IndexPath.IndexScanIsFilteredScanIff: assumes the conditions under which Postgres builds an index (no other writer, builder's copy holds all committed rows), and that no insert since the build was made while the highest rowid issued was gone; `RunIsFreshIff` shows that this last condition is exact for rowids to be fresh, and `RowidIsReissued` what happens without it.
- IndexDelete.DeletedIsInvisible: excludes that the snapshot's own backend has uncommitted work on the relation while another one asks; `DeletionErrsIff` gives the exact condition and `SeenRowLooksGone` a run.
- TransactionEnd.RustLeaksIff: describes a backend's first error after PreCommit; a later one also leaves open what earlier ones left, as `RustLateAbortRollsNothingBack` says for all of them.
