# KeyVDB: a verified model

KeyVDB is a transactional key-value engine: a slotted-page B+Tree over an LRU buffer pool, a
logical write-ahead log with redo/undo recovery, and strict two-phase locking. This project
models its five cores in Dafny and proves what each of them is for. Values are unbounded
sequences of bytes; every integer width, page size and record layout that the code relies on is
written out.

| layer | files | main results |
|---|---|---|
| transactions, log, recovery | `Locks`, `Log`, `Recovery`, `Engine*`, `Transactions`, `Durability` | an interleaved step machine: commit-order serializability, the overlay invariant, log shape, an exact crash-recovery theorem, restartable recovery, what a commit flushes, when a lock is granted; the transaction objects refine the machine |
| B+Tree | `Nodes`, `Order`, `Trees`, `TreeEdits`, `TreeRepairs`, `TreeBooks`, `LeafChain`, `Rebalancing`, `Diagnosis`, `RepairFaults`, `RepairOutcomes`, `Relief`, `RepairExample`, `InsertOutcomes`, `BTree` | insert, get and remove refine a plain map at any height; a tight split-capacity bound; exact pre-call conditions for inserts that are stored and for removals, and what the faulty repairs leave behind; the leaf chain is the in-order traversal |
| slotted page | `Bytes`, `SlottedPage` | the byte array refines the sorted cells the tree works on |
| buffer pool | `BufferPool`, `Traffic`, `PoolClients` | every sequence of fetch, edit, unpin, flush, new and delete behaves like direct page storage; pin balance of the tree and why it never exhausts the pool; frame conservation and the frame leak |
| codecs | `Wal`, `FreeList` | log and page-0 formats byte by byte, round trips, torn tails, id scan |

How the layers meet: `SlottedPages.SlottedPage` is proved to perform the page functions of
`Nodes` (`InsertCell`, `InsertSep`, `RemoveAt`, `Compacted`, `KeepFirst`); the tree uses those
functions on a page map and records its page traffic as a ghost trace; `PoolClients` shows that
this traffic is a legal command sequence and that the pool answers every such sequence like the
page map; the transaction layer works on the plain map that the tree refines; `Durability` puts the log bytes
under the crash theorem.

A `BTree` object carries a ghost `limit` on the cost of its leaf cells. Nothing in the code
corresponds to it: with `limit == USABLE` it excludes no cell a page can hold, and with
`limit <= LEAF_LIMIT` (1010) the contracts promise that no insert is dropped and no assertion fails.

Keys are compared through a rank in the reals. Every tree theorem holds for every injective rank;
`Order` proves that byte-wise lexicographic order has one.

## Where the code and its comments disagree

The model follows the code. Each departure is stated as a lemma, with the exact condition under
which the code does what its comments promise.

- Recovery skips aborted transactions because "the undo was flushed" (src/wal/recovery_manager.cpp:88-90);
  nothing guarantees that. `AbortedWriteResurfaces` is a run in which a rolled-back write comes
  back; `CrashRecovery` shows that the condition is necessary and sufficient.
- An empty value is indistinguishable from a deletion in the log (src/wal/recovery_manager.cpp:92,
  src/wal/log_manager.cpp:206-218): `EmptyValueIsLost`, and the second condition of `CrashRecovery`.
- A split is followed by an insert whose result is ignored (src/btree/btree.cpp:179-183). `Insert` says
  exactly when that loses the key. Cells up to 1010 bytes, slot included, are always stored;
  `LimitIsTight` shows that 1011 is too much.
- A child that is neither first nor last, turning to its right sibling, edits the separator on its left
  (src/btree/btree.cpp:456-466, 543-555, 583-604): `MiddleMergeBreaks`, `MiddleLoanBreaks`, and
  `RemovalLosesAnotherKey` for a valid tree in which another key is lost.
- Internal loans put the moved key where the old separator belongs (src/btree/node.cpp:587-600, 643):
  `StolenLeftBreaks`, `StolenRightBreaks`, `StolenLeftUnreachable`, `StolenRightUnreachable`.
- A leaf that lends its only cell is left without a range if that cell is its lower bound
  (src/btree/node.cpp:550-562): `EmptiedLenderBreaks`.
- Underflow counts dead bytes as occupied (src/btree/node.cpp:85-90): `EmptiedUnderflows`,
  `EmptyYetNotUnderflowing`.
- Eviction is said to return the frame to the free pool (src/storage/buffer_pool.cpp:71); deleting a
  page does not: `DeletePage` loses the frame and `ChurnExhausts` uses up all 64.
- `Page::clear` is said to reset the header to its defaults (src/storage/page.h:97-98); it leaves page id 0,
  not INVALID_PAGE_ID. The pool is transparent only because every page is fetched with its own id in its header.
- Page 0 is said to hold 1017 entries (src/storage/free_list.h:29-30); `OneMoreIsTheRoot` shows that
  the 1017th is the root slot, so the cap of 1016 is needed.
- The branch for an underflowing root (src/btree/btree.cpp:397-429) is never entered: `FixUnderflow`
  is only called below the root.

## Model

| member | source | states |
|---|---|---|
| Locks.GrantIsSafe | src/txn/lock_manager.cpp:74-88 | a granted request keeps the table safe (an exclusive holder excludes all others, every held key is listed for release, no empty entry) and changes exactly one thing: the requester holds that key, exclusively if it asked for that; all locks held before are still held |
| Locks.GrantedUnlessBlocked | src/txn/lock_manager.cpp:9-39 | in every safe table a shared request is granted if and only if no other transaction holds the key exclusively, and an exclusive one if and only if no other transaction holds it at all; own locks never stand in the way, so a sole shared holder is upgraded |
| Locks.ReleasedIsSafe | src/txn/lock_manager.cpp:92-119 | releasing leaves no trace of the transaction, keeps every other holder's locks exactly, and keeps the table safe |
| Locks.Conflict | src/txn/lock_manager.cpp:9-39 | in a safe table a holder beside an exclusive holder is that holder |
| Locks.WaitingLeavesTableUntouched | src/txn/lock_manager.cpp:53-71 | a request that has to wait found a real holder, so no empty entry stays behind |
| EngineInvariant.NoLocksLeft | src/txn/lock_manager.cpp:92-119 | once every transaction has ended the lock table and the release lists are empty |
| Locks.LockManager.Attempt | src/txn/lock_manager.cpp:43-88 | one pass of the request loop grants if and only if no other transaction holds an incompatible lock, including re-entry and S-to-X upgrade, and otherwise leaves the table as it was although the subscript created an entry |
| Locks.LockManager.Timeout | src/txn/lock_manager.cpp:57-70 | giving up removes an entry without holders and nothing else |
| Locks.LockManager.ReleaseAll | src/txn/lock_manager.cpp:92-119 | the loop over the recorded keys, duplicates and pruned entries included, removes every lock of the transaction and only those |
| Log.DecodedKeeps | src/wal/log_manager.cpp:206-218 | losing the existence flag changes neither who ended or lost nor which record wrote a key last |
| Recovery.RedoPerKey | src/wal/recovery_manager.cpp:56-100 | redo leaves on each key the after-image of its last write by a transaction that did not abort, and leaves other keys alone |
| Recovery.UndoPerKey | src/wal/recovery_manager.cpp:104-128 | when the losers' records on a key agree, undo restores that image; keys no loser wrote are left alone |
| Recovery.RecoveryForgets | src/wal/recovery_manager.cpp:14-27 | recovery's result depends on the starting tree only at keys the log does not touch |
| Recovery.RestartedRecovery | src/db.cpp:29-34 | stopping redo or undo anywhere, with any of its writes on disk or not, and starting over gives the result of one uninterrupted recovery, for every log and tree |
| Recovery.RecoveryIsIdempotent | src/wal/recovery_manager.cpp:56-76 | recovering twice is recovering once |
| Recovery.RecoveryManager.Analysis | src/wal/recovery_manager.cpp:31-52 | returns the transactions that began and did not end |
| Recovery.RecoveryManager.Redo | src/wal/recovery_manager.cpp:56-100 | applies the redo edits in log order |
| Recovery.RecoveryManager.Undo | src/wal/recovery_manager.cpp:104-128 | applies the losers' before-images in reverse order, and nothing without losers |
| Recovery.RecoveryManager.Recover | src/wal/recovery_manager.cpp:14-27 | the three phases make the recovered tree and report the number of losers |
| EngineSteps.StepKeeps | src/db.cpp:77-195 | every step of every operation keeps the engine invariant: locks cover what was used, private views are the committed store plus own writes, the log names the unfinished, replaying the log over the base gives the committed store, the disk shows values held since the checkpoint; locks are kept up to the last section of a transaction |
| EngineSteps.RunKeeps | src/db.cpp:77-195 | hence every run keeps it |
| EngineSteps.CommitOverlay | src/db.cpp:169-184 | a commit moves exactly the transaction's own writes into the committed store |
| EngineSteps.UndoRestores | src/db.cpp:125-134 | undoing brings exactly the transaction's own keys back to their committed values |
| EngineSteps.UnloggedIsBase | src/db.cpp:42-47 | a key no record mentions has the value it had at the last checkpoint, in the tree and among committed data |
| EngineTheorems.HistoryIsCommitOrder | src/db.cpp:169-174 | the history of a run is its commit records in the order they were logged |
| EngineTheorems.Serializability | src/db.cpp:138-195 | in every run, reopenings included, executing the transactions committed since the last opening one at a time in commit order gives every Get its answer (absent keys included), active transactions see that store plus their own writes, and without active transactions the tree is the serial result |
| EngineTheorems.CheckpointSeam | src/db.cpp:42-47 | closing makes the serial result of the session the base of the next one |
| EngineTheorems.CrashSeam | src/db.cpp:29-34 | a crash and recovery do so if and only if the conditions of the crash theorem hold |
| EngineTheorems.OverlayAndRollback | src/db.cpp:125-134 | in every run write sets of active transactions are disjoint, the tree is the committed store overlaid with them, and rolling one back removes its own effects and no others |
| EngineTheorems.FlushShowsCommitted | src/db.cpp:176-180 | in every run the flush of a committer leaves every key on disk as the tree shows it, hence with its committed value unless some active transaction is changing it; the committer's own keys are always among those, and neither tree nor committed store changes |
| EngineTheorems.RecordsAreNumbered | src/wal/log_manager.cpp:65-67 | in every run the records of the log are numbered 1, 2, 3 and so on |
| EngineTheorems.RecoveryPerKey | src/wal/recovery_manager.cpp:56-128 | in every state a key some non-aborted transaction logged recovers to its committed value (an empty one to absent), any other key to what the disk shows |
| EngineTheorems.CrashRecovery | src/wal/recovery_manager.cpp:14-128 | after every run with any pages written back at any time, recovery rebuilds the committed store if and only if rollbacks of keys logged only by aborted transactions reached the disk and no recovered key holds the empty string |
| EngineTheorems.CommittedSurvivesCrash | src/db.cpp:29-34 | under those conditions the reopened database holds the committed store, in memory and on disk |
| EngineLogShape.LogShape | src/db.cpp:77-123 | in every run each transaction's writes of a key are one contiguous block, every write record carries the value committed before it, and an unfinished writer of a key wrote its last record |
| EngineLogShape.AbortedWriteResurfaces | src/wal/recovery_manager.cpp:88-90 | a run in which a rolled-back write is on disk and recovery brings it back |
| EngineLogShape.EmptyValueIsLost | src/wal/recovery_manager.cpp:92-94 | a run in which a committed empty value is recovered as absent |
| Durability.RecoveryFromFile | src/wal/log_manager.cpp:176-233 | reading the log file of any run back, with a torn header at its end, and recovering gives the committed store under exactly the conditions of the crash theorem |
| Transactions.Database.constructor | src/db.cpp:26-35 | opening recovers, and tree and data file then both hold the recovered store, the log is empty and both counters are at 1: a freshly opened machine |
| Transactions.Database.Close | src/db.cpp:42-47 | closing is the machine's checkpoint: the data file holds the tree and the log is empty |
| Transactions.Database.Begin | src/db.cpp:51-55 | begin is the machine's begin step with the next id: one begin record, and tree and data file unchanged |
| Transactions.Transaction.Acquire | src/txn/lock_manager.cpp:43-88 | a lock request is a grant step if and only if no other transaction holds an incompatible lock, and a timeout otherwise |
| Transactions.Transaction.Get | src/db.cpp:138-146 | refuses an ended transaction, fails with a deadlock error if and only if another transaction holds the key exclusively, else returns the tree's answer as a lock and a get step |
| Transactions.Transaction.PutLocked | src/db.cpp:77-98 | keeps the first before-image, logs the write, then changes the tree |
| Transactions.Transaction.Put | src/db.cpp:148-157 | refuses an ended transaction, fails with a deadlock error if and only if another transaction holds the key, else the tree has the binding, as a lock and a put step |
| Transactions.Transaction.DeleteLocked | src/db.cpp:100-123 | an absent key is neither logged nor recorded; a present one is logged with an empty after-value and removed |
| Transactions.Transaction.Delete | src/db.cpp:159-167 | refuses an ended transaction, fails with a deadlock error if and only if another transaction holds the key, else the tree is without the key, as a lock and a delete step |
| Transactions.Transaction.UndoAll | src/db.cpp:125-134 | in whatever order the write set is walked, every key of it ends at its before-image |
| Transactions.Transaction.Commit | src/db.cpp:169-184 | log commit, flush, release, in this order: afterwards the data file holds exactly the tree, the log ends in the commit record and no lock is held |
| Transactions.Transaction.Rollback | src/db.cpp:186-195 | undo, log abort, release, in this order: afterwards the own keys show their before-images and all others are as they were, the data file is untouched, the log ends in the abort record and no lock is held |
| Wal.RoundTrip | src/wal/log_manager.cpp:65-117 | reading the bytes of any list of storable records returns the list as decoded, and the very list when existence flags match non-empty before-values |
| Wal.ReaderFormat | src/wal/wal_defs.h:61-68 | what the reader takes from any bytes, byte by byte: lsn at 0 and transaction id at 8 (signed, eight bytes), type at 16, key, before and after lengths at 20, 24 and 28 (four bytes), least significant byte first, then key, before-value and after-value from 32 on; type 0 ends the log |
| Wal.WriterFormat | src/wal/log_manager.cpp:68-98 | the bytes of every storable record have these values at these offsets |
| Wal.TornTail | src/wal/log_manager.cpp:181-229 | a last record cut inside its header is dropped, cut inside its payload it is an error, for every cut |
| Wal.ZeroTypeEndsLog | src/wal/log_manager.cpp:185-187 | whole records followed by anything whose type field is zero read back as those records |
| Wal.ScanCoversRecords | src/wal/log_manager.cpp:34-61 | on every readable file the id scan sees exactly the reader's records: an upper bound of all ids that is attained |
| Wal.EncodeAllSnoc | src/wal/log_manager.cpp:100-107 | appending a record's bytes extends the encoded list by that record |
| Wal.LogManager.constructor | src/wal/log_manager.cpp:34-61 | the next lsn and transaction id exceed every logged one |
| Wal.LogManager.Scan | src/wal/log_manager.cpp:34-61 | the offset walk computes the largest ids |
| Wal.LogManager.Append | src/wal/log_manager.cpp:65-117 | the buffer filled piece by piece is the record's encoding, appended at the end, in the format of `WriterFormat` |
| Wal.LogManager.BeginTxn | src/wal/log_manager.cpp:121-129 | a fresh id and one begin record |
| Wal.LogManager.Read | src/wal/log_manager.cpp:176-233 | the offset walk returns what the specification reads, short reads included, in the format of `ReaderFormat` |
| Wal.LogManager.Truncate | src/wal/log_manager.cpp:235-243 | an empty log and both counters at 1 |
| Order.RankKeepsOrder | src/btree/node.cpp:140-151 | byte-wise comparison of keys is comparison of their ranks |
| Order.BytesAreOrdered | src/btree/node.cpp:140-151 | the byte rank is injective, so the tree theorems apply to byte order |
| Nodes.Search | src/btree/node.cpp:140-151 | the binary search finds the first key not below the given one |
| Nodes.UpperBound | src/btree/btree.cpp:76-92 | the child to descend into is one past the last separator not above the key |
| Nodes.PlaceRoom | src/btree/node.cpp:80-83 | writing a cell fails exactly when the live cells leave no room for it; success inserts it and failure only compacts; dead bytes survive exactly when the gap suffices without compacting |
| Nodes.InsertCellRoom | src/btree/node.cpp:289-328 | the leaf insert refuses exactly when live bytes without the replaced cell plus the new cost exceed 4040 |
| Nodes.InsertCellContent | src/btree/node.cpp:289-328 | success binds the key and changes no other cell; failure leaves a compacted page without the key; the order is kept |
| Nodes.InsertCellDead | src/btree/node.cpp:289-328 | the dead bytes after an insert: kept, grown by the replaced cell, or gone because the page had to be compacted |
| Nodes.SplitMakesRoom | src/btree/node.cpp:397-463 | cutting a full page whose cells respect the limit leaves two non-empty parts that each take the pending cell, with at least three cells to cut |
| Nodes.SplitPointIs | src/btree/node.cpp:401-416 | the scan finds the one cut whose left part is the longest within half of the occupied bytes, except that the first cell always goes left |
| Nodes.CompactedSplit | src/btree/node.cpp:401-416 | a compacted page of two cells or more, of any sizes, is cut strictly inside; one cell more would take the left part past half, and the left part is within half unless it is the first cell alone |
| Nodes.PromotePointIs | src/btree/node.cpp:449-466 | an internal page promotes the separator at that cut, or its last one if the cut is behind it; there is only one such place |
| Nodes.SplitIsInside | src/btree/node.cpp:402-420 | a compacted page with two cells or more is cut strictly inside, whatever their sizes |
| Nodes.KeepFirstFits | src/btree/node.cpp:427-431 | the part that stays behind with dead bytes still fits |
| SlottedPages.KeepStep | src/btree/node.cpp:427-431 | the part that stays behind is what removing the cells one by one from the end leaves, dead bytes included |
| Trees.UniqueAt | src/btree/btree.cpp:66-100 | on each level the key ranges do not overlap, so at most one page is responsible for a key |
| LeafChain.ChainIsInOrder | src/btree/node.cpp:433-440 | following right links from the leftmost leaf lists exactly the leaves of the in-order traversal, every leaf is on it, and the left links lead back |
| TreeEdits.LeafCutShape | src/btree/btree.cpp:158-176 | a leaf split with relinked neighbours keeps the shape, pending its separator |
| TreeEdits.AttachShape | src/btree/btree.cpp:217-230 | giving the separator to the parent restores the whole shape |
| TreeEdits.InternalCutShape | src/btree/btree.cpp:255-312 | an internal split with reparented children keeps the shape, pending its separator |
| TreeEdits.GrownShape | src/btree/btree.cpp:327-363 | a new root above the two halves keeps the shape, one level higher |
| BTrees.BTree.constructor | src/btree/btree.cpp:34-50 | a new tree is valid and empty; its root is a leaf |
| BTrees.BTree.FindLeaf | src/btree/btree.cpp:62-101 | the descent terminates at the leaf responsible for the key, the breadcrumbs are its ancestors, and one page at a time is pinned, in the end the leaf |
| BTrees.BTree.Get | src/btree/btree.cpp:105-122 | answers what the map answers, absent keys included; all pins are given back and at most one is held |
| BTrees.BTree.Insert | src/btree/btree.cpp:126-192 | for cells of every size: a pair no page can hold is refused unchanged; otherwise the pages on the search path before the call decide whether the map gains exactly this binding, silently loses the key, or a split assertion fails, and in the first two cases the tree stays valid; with all cells at most 1010 bytes the binding is always stored; unless an assertion fails all pins are given back, at most three are held at once and every edited page is unpinned dirty. If the leaf has room only that page changes; if it has not, pages are added. A valid tree has a root that is a leaf or has a separator, and stays so |
| BTrees.BTree.SplitAndPlace | src/btree/btree.cpp:146-192 | a full leaf is split and its separator handed up: exactly when that finds a place the tree is valid again, and it holds the new binding exactly when the half in charge had room |
| BTrees.BTree.SplitLeaf | src/btree/btree.cpp:147-189 | the split leaf and its new sibling hold all other bindings, with the new one exactly when the half in charge of the key has room, and the chain is relinked; the cut is the balanced one of the live bytes |
| BTrees.BTree.InsertIntoParent | src/btree/btree.cpp:196-323 | a pending separator reaches its place, splitting upwards as needed, exactly when each page on the way has room, and then no binding changes and all pins are given back, at most three held; below the limit it always does. A parent with room is not split: pages are added exactly when its live cells leave no room |
| BTrees.BTree.AttachHere | src/btree/btree.cpp:217-252 | a parent with room, compacted or not, takes the separator without a page being added, and no binding changes |
| BTrees.BTree.SplitParent | src/btree/btree.cpp:255-312 | the parent's halves, its promoted key and all parent pointers are right whichever half takes the separator; it fails exactly when that half has no room or there are too few entries |
| BTrees.BTree.CreateNewRoot | src/btree/btree.cpp:327-363 | the root grows by one level and no binding changes, exactly when the separator fits a page |
| BTrees.BTree.Reparent | src/btree/btree.cpp:296-312 | every child of the moved entries names its new parent and no other page changes |
| BTrees.BTree.NewPage | src/storage/buffer_pool.cpp:174-179 | hands out an unowned page; page 0, free and live pages keep sharing out the file |
| BTrees.SplitLeafRoom | src/btree/btree.cpp:178-183 | below the limit a full leaf has cells enough to split and the half in charge takes the new one |
| BTrees.SmallSplitTakes | src/btree/btree.cpp:272-294 | below the limit a full parent has entries enough to split and the half in charge takes the separator |
| InsertOutcomes.OutcomeByCosts | src/btree/btree.cpp:137-192 | what an insert comes to in terms of cell sizes alone: stored if the other cells leave room; else cut at the only balanced place, lost if the half in charge has no room, an assertion if the separator finds no place |
| InsertOutcomes.SplitTakesByCosts | src/btree/btree.cpp:255-294 | a full parent takes a separator by splitting exactly when the half it belongs to, cut at the only balanced place, has room |
| InsertOutcomes.AscendsToALevel | src/btree/btree.cpp:196-323 | a separator finds a place exactly when there is a level, or a new root, with room for what arrives there, and every page below it takes its separator by splitting |
| InsertOutcomes.LimitIsTight | src/btree/btree.cpp:178-183 | with cells of at most 1011 bytes there is an insert that the code drops |
| TreeRepairs.ReboundShape | src/btree/btree.cpp:498-515 | moving the boundary between two neighbouring leaves keeps the shape |
| TreeRepairs.DetachShape | src/btree/btree.cpp:599-607 | taking a separator away leaves a pending pair and keeps the rest of the shape |
| TreeRepairs.JoinShape | src/btree/node.cpp:490-503 | joining two chained leaves, with the far neighbour relinked, restores the shape |
| TreeRepairs.FuseShape | src/btree/node.cpp:505-541 | joining two internal pages around the pulled-down separator, with children reparented, restores the shape |
| TreeRepairs.CollapsedShape | src/btree/btree.cpp:624-637 | replacing a root without separators by its only child keeps the shape |
| Rebalancing.LocateChild | src/btree/btree.cpp:446-470 | the scan finds the position of a page among its parent's children |
| Rebalancing.MovedSeparator | src/btree/btree.cpp:502-515 | renaming a separator in place or by remove and insert keeps its slot and succeeds exactly when it fits |
| Rebalancing.MergeLeaves | src/btree/node.cpp:490-497 | copying cell by cell gives both runs in order, and succeeds exactly when they fit; dead bytes survive unless the gap runs out |
| Rebalancing.MergeInternals | src/btree/node.cpp:505-520 | separator and entries end up in order, and it succeeds exactly when they fit; dead bytes survive unless the gap runs out |
| Rebalancing.UnderflowingLeavesFit | src/btree/node.cpp:85-90 | two underflowing leaves always fit into one page |
| Rebalancing.SmallCellsFit | src/btree/node.cpp:85-90 | a cell within the limit always fits into an underflowing leaf |
| Rebalancing.CompactDonorsSuffice | src/btree/btree.cpp:478-479 | a page without dead bytes that does not underflow has at least two cells |
| Rebalancing.LentFromLeft | src/btree/node.cpp:550-562 | a loan from a left leaf with any number of cells, whose range starts below its last key, moves one cell, keeps both leaves' ranges with the moved key as boundary, and loses nothing |
| Rebalancing.LentFromRight | src/btree/node.cpp:620-630 | a loan from the right leaf does the same with the lender's second key as boundary |
| Rebalancing.LoanKeeps | src/btree/btree.cpp:498-526 | a loan whose separator fits keeps shape, sizes and bindings of the whole tree |
| Rebalancing.MergedShape | src/btree/btree.cpp:583-616 | a merge keeps the shape, for leaves and internal pages |
| Rebalancing.MergedBooks | src/btree/btree.cpp:583-616 | a merge keeps page sizes and every binding |
| Rebalancing.DropKeeps | src/btree/btree.cpp:380-384 | removing a cell removes exactly its binding |
| Rebalancing.CollapseKeeps | src/btree/btree.cpp:624-637 | dropping the root keeps sizes and bindings |
| Diagnoses.DiagnosisFrame | src/btree/btree.cpp:446-470 | what comes of a repair can be read off the pages and ranges at and above its level before it starts |
| RepairOutcomes.LeftLoanOutcome | src/btree/btree.cpp:473-527 | the pages the code computes for a loan from the left, of leaves or internal pages, are in order exactly when the diagnosis finds no fault, and otherwise no levels and ranges make them a tree |
| RepairOutcomes.RightLoanOutcome | src/btree/btree.cpp:533-567 | the same for a loan from the right, to a first or a middle child |
| RepairOutcomes.MergeOutcome | src/btree/btree.cpp:575-616 | the pages the code computes for a merge are in order if it removed the separator between the two pages, and no tree if it removed another one |
| BTrees.BTree.Remove | src/btree/btree.cpp:367-391 | an absent key changes nothing; otherwise the diagnosis of the search path before the call decides: no fault, and the tree stays valid and loses exactly that binding; a failed assertion; or a fault after which the call returns true and no levels and ranges make the pages a tree. Unless an assertion fails all pins are given back, at most four are held at once, and at most one page per level and the root are deleted. Without a fault the root is a leaf or has a separator again, and no page on the search path that lost entries is left underflowing. The leaf is repaired exactly when it underflows below the root, by its left neighbour if that does not underflow, else by its right one, else by a merge |
| BTrees.BTree.FixUnderflow | src/btree/btree.cpp:431-714 | the repair, recursing upwards, keeps the tree valid and every binding exactly when the diagnosis finds no fault, ruins it or fails an assertion as diagnosed, and balances its pins; which neighbour lends or which page disappears is stated in terms of the pages before, pages below keep their cells, and no page above that lost entries is left underflowing |
| BTrees.BTree.MergeUp | src/btree/btree.cpp:572-714 | when no sibling can lend, the merge and what follows from it for the parent are as diagnosed; the page merged away is the right neighbour, or the page itself if it is the last child |
| BTrees.BTree.Settle | src/btree/btree.cpp:618-637 | after a merge a parent that underflows below the root has grown or is gone, a root without separators has given way to the surviving child, and otherwise nothing changes; the root of the result is a leaf or has a separator |
| BTrees.BTree.BorrowFromLeft | src/btree/btree.cpp:473-527 | the loan is carried out as the code does it, for leaves and internal pages: the new pages are given exactly, in order or ruined as diagnosed, and all pins are given back |
| BTrees.BTree.BorrowFromRight | src/btree/btree.cpp:533-567 | the same for a loan from the right, with the separator the code has at hand |
| BTrees.BTree.Merge | src/btree/btree.cpp:575-616 | merging neighbours around their separator keeps the tree valid and every binding, frees the page and leaves all higher pages but the parent alone; around another separator it ruins the tree; it fails exactly when the joined page or the free list has no room; pins are balanced; the joined page holds both runs of cells in order and the dead bytes the copying leaves |
| Relief.NoSiblingNeedsBareParent | src/btree/btree.cpp:446-470 | a page is found without a sibling only below a page on its path that is not the root and has no separator |
| Relief.RootChildHasSibling | src/btree/btree.cpp:624-637 | because a root without separators gives way, no child of the root is ever found without a sibling |
| Relief.StopsWhen | src/btree/btree.cpp:431-714 | an assertion fails in a repair exactly when a page operation of the chosen loan or merge refuses, the free list is full, or, after a sound merge, the same is true further up |
| Relief.LoanRelieves | src/btree/btree.cpp:498-526 | a loan between leaves changes no page above by a single entry |
| Relief.MergeRelieves | src/btree/btree.cpp:618-623 | a merge followed by the repair of its parent leaves no page on the path underflowing that lost entries |
| RepairFaults.MiddleMergeBreaks | src/btree/btree.cpp:583-616 | whenever a middle child merges to its right, the freed page stays a child and the surviving one is cut off: no levels and ranges make the result a tree |
| RepairFaults.MiddleLoanBreaks | src/btree/btree.cpp:543-555 | whenever a middle child, leaf or internal, borrows from its right, no levels and ranges make the result a tree |
| RepairFaults.StolenLeftUnreachable | src/btree/node.cpp:564-600 | after an internal loan from the left no key sent to the borrower reaches the child that came with it |
| RepairFaults.StolenRightUnreachable | src/btree/node.cpp:632-643 | the same for a loan from the right |
| RepairFaults.StolenLeftBreaks | src/btree/node.cpp:564-613 | whenever an internal page borrows from its left, no levels and ranges make the result a tree |
| RepairFaults.StolenRightBreaks | src/btree/node.cpp:632-657 | whenever an internal first child borrows from its right, no levels and ranges make the result a tree |
| RepairFaults.EmptiedLenderBreaks | src/btree/node.cpp:550-562 | whenever a leaf lends its only cell and that is its lower bound, no levels and ranges make the result a tree |
| RepairExample.SearchAnswers | src/btree/btree.cpp:62-122 | in a proper tree a search from the root answers like the map the tree stores |
| RepairExample.RemovalLosesAnotherKey | src/btree/btree.cpp:583-616 | removing one key from a valid tree of three small leaves (`SmallTreeIsValid`) is diagnosed as a misplaced separator, and a search for another key, which the tree held, then finds nothing |
| RepairFaults.EmptiedUnderflows | src/btree/node.cpp:85-90 | a page whose cells were all removed underflows if and only if its dead bytes are under half a page |
| RepairFaults.EmptyYetNotUnderflowing | src/btree/node.cpp:373-381 | some page within the limits loses all its cells without underflowing |
| SlottedPages.SlottedPage.KeyAt | src/btree/node.cpp:107-113 | the bytes behind a slot decode to the cell's key |
| SlottedPages.SlottedPage.ValueAt | src/btree/node.cpp:115-125 | the bytes behind a slot decode to the cell's value |
| SlottedPages.SlottedPage.ChildAt | src/btree/node.cpp:127-136 | the bytes behind a slot decode to the cell's signed child id |
| SlottedPages.PageFormat | src/btree/node.cpp:97-136 | the page byte by byte: two-byte slots from 32 on, at the offset in a slot the two-byte key length and the key, then the two-byte value length and the value, or the signed four-byte child id; least significant byte first |
| SlottedPages.SlottedPage.FindSlot | src/btree/node.cpp:140-151 | binary search over the bytes finds the lower bound |
| SlottedPages.SlottedPage.ShiftSlotsRight | src/btree/node.cpp:155-162 | slots from the given one move up, all other bytes stay |
| SlottedPages.SlottedPage.ShiftSlotsLeft | src/btree/node.cpp:164-171 | slots above the given one move down, all other bytes stay |
| SlottedPages.SlottedPage.WriteCell | src/btree/node.cpp:175-223 | the new cell is inserted at its slot; regions never cross and cells never overlap |
| SlottedPages.SlottedPage.Compact | src/btree/node.cpp:227-284 | every cell survives in order and no dead byte is left |
| SlottedPages.SlottedPage.InsertLeafCell | src/btree/node.cpp:289-328 | the byte-level insert is the node-level one: same verdict, same cells, same dead bytes |
| SlottedPages.SlottedPage.InsertSeparator | src/btree/node.cpp:332-348 | the byte-level separator insert is the node-level one |
| SlottedPages.SlottedPage.OverwriteValue | src/btree/node.cpp:298-310 | a value of the same size is replaced in place and no other cell changes |
| SlottedPages.SlottedPage.UpdateSeparatorKey | src/btree/node.cpp:350-360 | a separator's key is replaced in place by one of the same length and no other cell changes, whatever that does to the order |
| SlottedPages.SlottedPage.RemoveCell | src/btree/node.cpp:373-381 | the cell is gone and its payload counts as dead |
| SlottedPages.SlottedPage.ScanForSplit | src/btree/node.cpp:402-420 | the scan finds the byte-balanced split point, which is stated by sizes alone: the last cut within half of the occupied bytes, but not before the first cell |
| SlottedPages.SlottedPage.SplitInto | src/btree/node.cpp:385-484 | the upper cells move to the other page, leaf or internal, with the separator, the links and the dead bytes the tree expects |
| FreeLists.LoadInvertsSave | src/storage/free_list.cpp:39-84 | for up to 1016 page ids loading what was saved gives the list back, and the root slot is untouched |
| FreeLists.PageZeroFormat | src/storage/free_list.h:25-40 | page 0 byte by byte: the count at 0, the ids from 4 on, the root id at 4068, four bytes each, least significant first, ids signed; a count above 1016 is refused |
| FreeLists.SavedFormat | src/storage/free_list.cpp:61-84 | saving writes exactly that and leaves the bytes behind the last entry alone |
| FreeLists.RootSlotIsApart | src/storage/free_list.cpp:103-126 | the root slot reads back what was stored and the list is untouched |
| FreeLists.OneMoreIsTheRoot | src/storage/free_list.h:57-63 | with one entry more the last entry would be read as the root |
| FreeLists.FreeList.Load | src/storage/free_list.cpp:13-59 | a new file gets an empty list and no root; an existing one is decoded, or refused if its count exceeds the cap |
| FreeLists.FreeList.Save | src/storage/free_list.cpp:61-84 | page 0 then holds the list, and nothing else changes |
| FreeLists.FreeList.Allocate | src/storage/free_list.cpp:86-94 | pops the last freed page, or reports none, with page 0 in step |
| FreeLists.FreeList.Free | src/storage/free_list.cpp:96-101 | appends the page, with page 0 in step and the root kept |
| FreeLists.FreeList.RootPageId | src/storage/free_list.cpp:103-113 | reads the root slot |
| FreeLists.FreeList.SetRootPageId | src/storage/free_list.cpp:115-126 | stores the root and keeps the list |
| Storage.DiskManager.ReadPage | src/storage/disk_manager.cpp:38-57 | a page inside the file, else an out-of-range error |
| Storage.DiskManager.WritePage | src/storage/disk_manager.cpp:59-78 | replaces that page, else a negative-id error |
| Storage.DiskManager.AllocatePage | src/storage/disk_manager.cpp:87-105 | one zeroed page at the end |
| Caches.FramesAreConserved | src/storage/buffer_pool.cpp:8-16 | free, recently-used and lost frames always total 64, and residents match the frames in use |
| Caches.ExhaustedWhen | src/storage/buffer_pool.cpp:86-102 | no frame can be had exactly when pinned pages and lost frames number 64 |
| Caches.VictimIsOldest | src/storage/buffer_pool.cpp:90-95 | the victim is the unpinned frame used longest ago |
| Caches.EvictKeeps | src/storage/buffer_pool.cpp:39-76 | eviction with write-back changes no page's content |
| BufferPools.BufferPool.constructor | src/storage/buffer_pool.cpp:8-16 | an empty pool presents the pages of the file |
| BufferPools.BufferPool.Touch | src/storage/buffer_pool.cpp:27-37 | the frame becomes most recent and recency stays the order of last use |
| BufferPools.BufferPool.EvictFrame | src/storage/buffer_pool.cpp:39-76 | a dirty frame is written under its own id first; frame, table and recency list forget the page |
| BufferPools.BufferPool.Coldest | src/storage/buffer_pool.cpp:90-95 | the scan from the cold end finds the victim |
| BufferPools.BufferPool.FindFreeFrame | src/storage/buffer_pool.cpp:78-107 | finds a frame unless pinned pages and lost frames fill the pool, never moves a pinned page and changes no content |
| BufferPools.BufferPool.FetchPage | src/storage/buffer_pool.cpp:111-137 | the frame returned shows the page's last written content with one pin more; null exactly on exhaustion; an out-of-range id fails and loses a frame |
| BufferPools.BufferPool.Edit | src/btree/btree.cpp:10-13 | writing through the pointer changes that page's content only |
| BufferPools.BufferPool.UnpinPage | src/storage/buffer_pool.cpp:139-150 | one pin less, no content changed, provided the last unpin of an edited page reports it dirty |
| BufferPools.BufferPool.FlushPage | src/storage/buffer_pool.cpp:152-162 | the file gets the page if it was dirty; false exactly for a page not in the pool |
| BufferPools.BufferPool.FlushAll | src/storage/buffer_pool.cpp:164-172 | the file holds the content of every page not being edited |
| BufferPools.BufferPool.NewPage | src/storage/buffer_pool.cpp:174-202 | a zeroed page with its own id, recycled before the file grows; ownership of page ids stays a partition; exhausted, the id is orphaned |
| BufferPools.BufferPool.DeletePage | src/storage/buffer_pool.cpp:204-221 | the page and nothing else disappears, its id is free, and a resident page's frame is lost |
| PoolClients.Perform | src/storage/buffer_pool.cpp:111-221 | each single fetch, edit, unpin, flush, new and delete through the pool, with any pages pinned, is that command on direct storage |
| PoolClients.Play | src/storage/buffer_pool.cpp:18-221 | every sequence of these commands that reports edits dirty and keeps within the frames gets the answers of direct storage, whatever was evicted, and the final flush puts every page that is not being edited on disk |
| PoolClients.TrafficNeverExhausts | src/btree/btree.cpp:10-19 | the tree's page traffic is such a sequence, so no fetch in it finds the pool exhausted, as long as the frames lost before, the pins held at once and the pages deleted fit the pool together |
| PoolClients.ChurnExhausts | src/storage/buffer_pool.cpp:204-221 | 64 rounds of create and delete leave no frame: the next fetch of a page returns null |

## Left out

- Pin balance is stated of operations that start with nothing pinned and end without a failed assertion; the traffic is recorded beside the page updates and is not derived from them.
- BTrees.BTree.Insert: where a split's assertion fails the model stops with that error instead of describing a build without assertions.
- BTrees.BTree.FixUnderflow: after a misdirected merge the code goes on to repair the parent if that underflows; the model stops with the pages ruined by then.
- SlottedPages.SlottedPage.InsertSeparator: assumes the key is not there yet; the code would store it twice, which no caller does.
- SlottedPages.SlottedPage.SplitInto: assumes that the scan stops before the last cell of a leaf, as the code's own assertion does. Node header fields are object fields; only slots and cells are bytes.
- Merges and loans are proved on cells; their byte-level steps are the page methods above. The slot an internal loan opens at the front of a page is WriteCell.
- Transactions.Database.constructor: models opening an existing tree. For a file without a root the code creates a tree and leaves the log as it is.
- Transactions.Transaction.Put: the transaction layer works on a plain map, which the tree refines for inserts that are stored and removals that are sound. For a pair no page can hold the code logs the write and then throws; that is not modelled.
- Transactions.Transaction.Acquire: waiting is the choice of when the request is made; a request that is not compatible then ends in a timeout. A waiter that times out although the lock has just become free is a step of the machine only. Mutexes, condition variables and deadlines are not modelled: each critical section is one step.
- The destructor's rollback of an unfinished transaction, and closing or truncating with transactions active.
- Crashes inside a page write or part-way through a split, and log writes that are lost after they returned: recovery is stated per key and completed log writes survive.
- BufferPools.BufferPool.FetchPage: ids inside the file that are not live (page 0, free or orphaned pages) are not fetched; their headers need not hold their ids.
- BufferPools.BufferPool.DeletePage: only live pages are deleted; the code would put any id on the free list.
- BufferPools.BufferPool.NewPage: on exhaustion the code asserts; the model gives the behaviour without assertions. Page ids are assumed to stay below 2^31.
- lru_map_ is an index into the recency list and is merged with it.
- FreeLists.FreeList.Free: a full list violates the code's assertion and is a precondition; the tree reports it as a fault.
- page_lsn, which recovery neither sets nor reads.
- POSIX calls, fsync and short reads or writes of the data file; the TCP server, client handler and TypeScript client; the demo programs.
