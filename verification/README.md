# TidesDB storage engine: a verified model

TidesDB's MySQL plugin keeps SQL rows in a log-structured key/value engine. This
project models the parts of the plugin that carry its hardest promises and proves
those promises for every input, every run and every reachable state:

1. **Row locks** (`RowLock`, `RowLockSafety`, `Deadlock`, `RowLockRuns`, `RowLockGrants`,
   `DepthBound`, `LockTable`). The pessimistic lock manager as a step machine with one program counter
   per transaction, each step doing at most one store the lock-free deadlock walker can
   see. What an acquire that returns success owns, mutual exclusion, exact held lists and waiter counts, no lost wakeup, no walker
   on a freed transaction, and deadlock detection. The manager's own loops (hash chain,
   wait-for walk, claim, release) are methods on updated fields.
2. **Spatial index** (`Hilbert`, `HilbertPath`, `HilbertBlocks`, `SpatialRanges`,
   `SpatialScan`, `SpatialQuery`, `Wkb`).
   The 32-level Hilbert encoder with its wrapping words, the decomposition of a query box
   into curve ranges, the range scan, a query end to end, and the recursive WKB parser with
   its bounding box.
3. **Two-phase commit and XA recovery** (`EngineContract`, `TrxHooks`, `TwoPhase`,
   `TwoPhaseRuns`, `BufferedWrites`, `WriteHistory`, `Xid`, `Recovery`). The per-connection
   context and the begin, prepare, commit and rollback hooks, run by any number of connections in any
   order the server allows, with a crash at any point, the in-doubt list at the next
   open, and cached iterators.
4. **Indexes beside the data** (`SecondaryIndex`, `FullText`, `PrefixSeek`,
   `ReverseSeek`, `IndexBuild`). Row writes and what they do to secondary and full-text
   indexes, prefix seeks over byte-ordered keys, reverse reads, and the batched in-place
   index build.
5. **Row format** (`RowCodec`). Rows written under one schema and read under another.

`ByteOrder` holds memcmp order, iterator seeks over sorted keys and the fixed-width
integer encodings.

Nothing was executed. `dafny verify dfyconfig.toml` checks the whole project.

## Where the code does less than it says

Each of these is a theorem: a condition a caller could check that holds exactly when the
code meets its promise, and an input on which it does not.

- *Deadlock detection stops at depth 100.* A cycle of n transactions can fall wholly
  asleep if and only if n > 100 (`DepthBound.DepthBoundExact`, which builds the run).
- *Box ranges can miss points.* The comment at `plugin/tidesdb_spatial.cc:353-354` speaks
  of the block of a coarse cell, but line 355 pushes the curve value of the cell's low
  corner, which is not the start of the block when the curve is turned over an odd number
  of times there. A cell is covered if and only if it is even, or the cell before it on
  the curve is odd and in the box (`SpatialRanges.CellCoveredExactly`, and point by point
  `SpatialRanges.PointCoveredExactly`); a concrete box and point are in
  `SpatialRanges.MissedPoint`. With block starts, as the comment says,
  the ranges are exact (`SpatialRanges.BlockRangesExact`).
- *Spatial queries miss rows.* Entries are keyed by the centre of their box. A query
  returns exactly the matching rows whose key point the ranges hold
  (`SpatialQuery.Search`). For containment and equality that is the condition above on
  the key point's cell (`SpatialQuery.ContainmentReached`); for intersection a row centred
  outside the touched cells is found only by the overrun of an odd cell
  (`SpatialQuery.StrayReached`), and `SpatialQuery.IntersectionMissed` is one that is not.
  The quantiser keeps the order of doubles but for the pair of zeros
  (`SpatialQuery.LexKeepsOrder`), and `SpatialQuery.NegativeZeroMissed` is a point at
  negative zero that a box from zero does not find.
- *Buffered writes can be dropped by the next statement.* `needs_reset` is not lowered
  where a handle is begun afresh (`plugin/ha_tidesdb.cc:1994-2005`). After a backup
  command, a TRUNCATE, or a reset and begin that both fail, the second statement of the
  next transaction resets it. On a connection without a handle a first statement's write
  survives the second statement if and only if the flag is down
  (`BufferedWrites.WriteSurvivesExactly`, `BufferedWrites.BackupLosesWrite`); in runs
  without those three events no statement start drops a write (`BufferedWrites.WritesKept`).
- *A commit can apply less than was written.* A successful commit applies exactly the
  accepted writes of the transaction that the connection has not let go of since: all of
  them if and only if none of these came after a write that still counts: a mid-load
  commit, a flush before DDL, a TRUNCATE, a backup command, a reset by a stranded flag, or
  the rollback of a later statement, which rolls back the earlier ones too
  (`WriteHistory.CommitAppliesWhatIsLeft`, with the events in `WriteHistory.GoneExactly`;
  what a vote logs is `WriteHistory.VoteLogsWhatIsLeft`). `BufferedWrites.BackupLosesWrite`
  is an input.
- *A commit decision can be overruled.* When phase two fails the transaction stays
  prepared on its connection, and a later rollback there discards it. All commit
  decisions of a run are carried out or still in the log if and only if no connection was
  rolled back after its commit was decided (`TwoPhaseRuns.CommitDecisionsKept`);
  `TwoPhaseRuns.OverruledRun` is a run from the first open in which one is lost.
- *Updates can break unique keys and leave stale ones.* `update_row` checks no duplicate.
  Unique keys stay unique if and only if no other row that stays has the new row's unique
  bytes (`SecondaryIndex.UpdateUnique`; `SecondaryIndex.UpdateBreaksUnique` is an input).
  Indexes stay in step if and only if the new primary key overwrites no row with other
  index bytes and no skipped index has new bytes (`SecondaryIndex.UpdateMirrors`;
  `SecondaryIndex.UpdateLeavesStaleKey` is an input). Over any sequence of statements the
  indexes are in step throughout if and only if every statement is safe, whatever becomes
  of unique keys (`SecondaryIndex.RunInStep`), and both hold throughout if and only if
  every statement meets both conditions (`SecondaryIndex.RunExact`). Where inserts have
  their checks on, and updates mark what they change and keep their primary key or move to
  a free one, indexes are in step throughout (`SecondaryIndex.OrdinaryRunInStep`), and
  unique keys unique if and only if no update writes bytes another row keeps
  (`SecondaryIndex.OrdinaryRunUnique`). Those are restrictions, not something the server
  guarantees.
- *Full-text indexes go wrong where a document is written over another* (an insert with
  `skip_unique_check`, a move onto a taken primary key). The postings are the image of the
  documents throughout a run if and only if no term of a document written over is left
  (`FullText.RunMirrors`). *And counters drift in a bulk insert that deletes*: a delete is
  clamped against stored counters that do not hold the bulk insert's own rows yet. After
  any run the counters are true if and only if no clamp fired and no document was written
  over another (`FullText.RunCounted`); a clamp takes a delete or change inside a bulk
  insert (`FullText.OutsideBulkNeverClamps`). `FullText.OverwriteGoesWrong` and
  `FullText.BulkReplaceMiscounts` are inputs.
- *A reverse read can return a foreign row.* The guard of HA_READ_PREFIX_LAST stands only
  in the branch for part of a primary key (`plugin/ha_tidesdb.cc:6316-6356`), where the
  read is exact (`ReverseSeek.PartialLast`). With the full key a foreign row comes back if
  and only if the row is absent, the table has a row, and a key sorts below: the row
  before it or, where only metadata sorts below, which iter_read_current steps over
  forwards, the first row of the table (`ReverseSeek.FullLast`, `ReverseSeek.ReverseExact`;
  `ReverseSeek.FullKeyForeign` has both inputs). On a secondary index there is no guard at
  any key length, and the padding is the length of a primary key even where more columns
  are missing: a foreign row comes back if and only if no entry of the group is reachable
  and one sorts below, and an entry is out of reach if and only if it extends the padded
  key (`ReverseSeek.SecondaryLast`; `ReverseSeek.SecondaryForeign` has both inputs).
  HA_READ_BEFORE_KEY with part of a primary key is padded like the others: it returns the
  last row of the group, not the row before it, if and only if the group has a row
  (`ReverseSeek.PartialBefore`).
- *Long words are indexed and not found by a wildcard.* `fts_max_word_len` counts
  characters when a word is indexed (`plugin/tidesdb_fts.cc:447`) and bytes when `stem*`
  is scanned (`plugin/ha_tidesdb.cc:8903-8906`). An indexed word is reached if and only if
  its bytes are within the limit (`PrefixSeek.WordReached`);
  `PrefixSeek.AccentedWordMissed` is one that is not.
- *A long query word overruns its buffer.* Every term of a query is copied into 514 bytes
  without a test (`plugin/ha_tidesdb.cc:8875-8880`), and the words of a boolean query are
  under no length limit (`plugin/tidesdb_fts.cc:652-693`), whatever `fts_max_word_len`
  says. The copy fits if and only if the term has at most 512 bytes
  (`PrefixSeek.FillPrefix`); `PrefixSeek.LongBooleanWord` builds the query of 513 letters.
- *The in-place build swallows failed batches.* A failed batch commit, put or re-seek is
  only logged. The built index is the image of the table if and only if every row was
  reached, put and committed (`IndexBuild.Build`, `IndexBuild.LostBatch`).

`plugin/ha_tidesdb.h:573` calls `lock_txn_id` a unique id equal to the generation; the
code sets it to 1 for every transaction (`plugin/ha_tidesdb.cc:2055`), and so does the
model, which is why ownership is decided by the owner pointer.

## What is assumed of the parts not modelled

- The engine: a reset, plain commit or plain rollback of a prepared transaction is
  refused; a failed commit has aborted the transaction; freeing a handle keeps a prepared
  batch in the log; commits and prepared batches survive a crash; a prepare of an empty
  batch commits it.
- The server: no statement between prepare and the matching commit or rollback; a failed
  bulk statement is rolled back; an XID still in the log is not used again; once it has
  decided about an XID it asks for the same by XID or by the commit hook. (A rollback hook
  after a decided commit is not excluded, see above.)
- Atomic loads and stores of the lock manager take effect in one order that all threads
  agree on; mutexes and the lifetime lock exclude as documented.
- The packing of fields that are not copied is self-delimiting and not empty; comparable index keys have a fixed
  length per index and depend on the indexed columns; the partition hash is any function;
  finite doubles lie within DBL_MAX and are treated as reals.

## Model

| member | source | states |
|---|---|---|
| RowLockSafety.KeepsEntries | plugin/tidesdb_row_lock.cc:58-84 | every step keeps one entry per primary key, in the partition its key hashes to |
| RowLockSafety.KeepsOwners | plugin/tidesdb_row_lock.cc:190-201 | every step keeps owner id 0 exactly where the owner pointer is null, and every owner a live transaction |
| RowLockSafety.Moves | plugin/tidesdb_row_lock.cc:145-285 | an owner changes only from none to the stepping transaction or, by a release, to none, and giving up an entry with sleepers signals them |
| RowLockSafety.GivesUpOwn | plugin/tidesdb_row_lock.cc:263-285 | an owned lock changes hands only through its owner's own release |
| RowLockSafety.KeepsPcs | plugin/tidesdb_row_lock.cc:138-257 | every step keeps what each program point says about waiting_on, the lock and its owner |
| RowLockSafety.KeepsExclusive | plugin/tidesdb_row_lock.cc:145-257 | at most one transaction is in a partition's critical section |
| RowLockSafety.KeepsWalkersLive | plugin/tidesdb_row_lock.cc:108-122 | every pointer a deadlock walker holds names a transaction that has not been freed |
| RowLockSafety.KeepsNoLostWakeup | plugin/tidesdb_row_lock.cc:203-237 | every step keeps: a sleeper that has not been signalled sleeps on an owned lock |
| RowLockSafety.KeepsWaitersExact | plugin/tidesdb_row_lock.cc:203-248 | every step keeps waiters equal to the number of transactions in the wait section of the lock |
| RowLockSafety.KeepsHeld | plugin/tidesdb_row_lock.cc:190-285 | every step keeps each held list a duplicate-free chain of exactly the entries its transaction owns |
| Deadlock.KeepsCyclesHot | plugin/tidesdb_row_lock.cc:97-124 | every step keeps: a wait-for cycle of at most 100 transactions has a member still on its way to the verdict |
| Deadlock.CycleClosedBy | plugin/tidesdb_row_lock.cc:173-201 | a step that closes a cycle is a member's own: it has just published its wait, or just claimed the lock and not yet cleared its wait |
| Deadlock.ClosedCycleHot | plugin/tidesdb_row_lock.cc:173-188 | a cycle with such a fresh edge has a member still on its way to the verdict |
| Deadlock.HotWalkStays | plugin/tidesdb_row_lock.cc:108-122 | a walker inside a standing cycle moves along it and ends only at itself |
| Deadlock.OtherStepKeepsHot | plugin/tidesdb_row_lock.cc:97-257 | another transaction's step does not take a member of a standing cycle off its way |
| RowLockRuns.InitInv | plugin/tidesdb_row_lock.cc:287-300 | the empty lock table satisfies the invariant |
| RowLockRuns.StepInv | plugin/tidesdb_row_lock.cc:97-285 | every step of every transaction keeps the whole invariant |
| RowLockRuns.ReachableInv | plugin/tidesdb_row_lock.cc:97-285 | every reachable state satisfies the invariant and every short cycle in it has a member not asleep |
| RowLockRuns.OneOwnerPerKey | plugin/tidesdb_row_lock.cc:138-257 | in a reachable state two owners of entries for one key are the same live transaction and entry |
| RowLockGrants.GrantOwns | plugin/tidesdb_row_lock.cc:150-257 | an acquire that returns success, at once, after the walk or after the wait, owns the entry of the key asked for |
| RowLockGrants.AnsweredAtOnce | plugin/tidesdb_row_lock.cc:150-201 | an acquire is answered at once if and only if the entry is free or its own, and a free entry found after the walk is taken |
| RowLockGrants.WaysToIdle | plugin/tidesdb_row_lock.cc:138-285 | a transaction is back with its caller only by creation, success, a kill, a deadlock verdict or the end of a release |
| RowLockGrants.StepBook | plugin/tidesdb_row_lock.cc:138-285 | every step of every transaction keeps the account of granted keys equal to the keys owned |
| RowLockGrants.GrantedIsOwned | plugin/tidesdb_row_lock.cc:138-285 | after any run a transaction back with its caller owns exactly the keys granted since it last released |
| RowLockGrants.GrantsExclude | plugin/tidesdb_row_lock.cc:138-285 | after any run no key is granted to two transactions |
| RowLockGrants.SleeperTakesFree | plugin/tidesdb_row_lock.cc:215-257 | a sleeper whose entry and partition are free takes the entry in three steps of its own |
| RowLockRuns.ReleasedOwnsNothing | plugin/tidesdb_row_lock.cc:263-285 | after release_all, and before the struct is freed, a transaction owns no entry |
| RowLockRuns.HotAdvances | plugin/tidesdb_row_lock.cc:97-124 | a member on its way can always step, keeps the cycle and comes closer to the verdict |
| RowLockRuns.VerdictBreaksCycle | plugin/tidesdb_row_lock.cc:175-188 | the verdict ends the wait and with it the cycle |
| DepthBound.DepthBoundExact | plugin/tidesdb_row_lock.cc:97-124 | a cycle of n transactions can fall wholly asleep if and only if n > 100 |
| LockTable.Partition.constructor | plugin/tidesdb_row_lock.cc:287-300 | a new partition has an empty chain |
| LockTable.Partition.FindOrCreate | plugin/tidesdb_row_lock.cc:58-84 | returns the one entry with the key, new at the head exactly when there was none |
| LockTable.WouldDeadlock | plugin/tidesdb_row_lock.cc:97-124 | on a table that stands still, yes if and only if the requestor is among the first 100 on the wait-for path |
| LockTable.Holder.Claim | plugin/tidesdb_row_lock.cc:250-256 | the entry becomes the head of the held list and nothing else changes |
| LockTable.Holder.ReleaseAll | plugin/tidesdb_row_lock.cc:263-285 | exactly the transaction's entries are freed, those with waiters are broadcast, the list is empty |
| LockTable.ReleaseSteps | plugin/tidesdb_row_lock.cc:263-285 | the step machine's release, taken without interference, leaves the table as the loop does |
| LockTable.WalkSteps | plugin/tidesdb_row_lock.cc:97-124 | the step machine's walk, taken without interference, reaches the loop's verdict |
| Hilbert.DigitIsXor | plugin/tidesdb_spatial.cc:81-92 | the digit of a level is (3 * rx) xor ry |
| Hilbert.DecodeEncode | plugin/tidesdb_spatial.cc:66-92 | decoding the curve value of a point gives the point, at every order |
| Hilbert.EncodeDecode | plugin/tidesdb_spatial.cc:66-92 | encoding the point of a value gives the value, so the curve is a bijection |
| Hilbert.RotIsSplit | plugin/tidesdb_spatial.cc:66-79 | one rotation by s << 1 on wrapping 32-bit words, garbage bits and all, is one level of the curve on the unread bits |
| Hilbert.Xy2d | plugin/tidesdb_spatial.cc:81-92 | the loop computes the order-32 curve value for all pairs of 32-bit coordinates |
| HilbertPath.PathSteps | plugin/tidesdb_spatial.cc:66-92 | points at consecutive positions are neighbours, at every order |
| HilbertPath.ValuesStep | plugin/tidesdb_spatial.cc:81-92 | points with consecutive values are neighbours |
| HilbertPath.FirstValue | plugin/tidesdb_spatial.cc:81-92 | the low corner has value 0 |
| HilbertPath.LastValue | plugin/tidesdb_spatial.cc:81-92 | the lower right corner has the last value |
| HilbertBlocks.BlockAndOffset | plugin/tidesdb_spatial.cc:66-92 | a value is its coarse cell's block number and the curve position inside the cell |
| HilbertBlocks.CellIsBlock | plugin/tidesdb_spatial.cc:349-358 | the points of a coarse cell are exactly the points with a value in its aligned block |
| HilbertBlocks.FlipsAreThrees | plugin/tidesdb_spatial.cc:66-79 | the curve is turned over in a cell as often as its block number has digit 3 |
| HilbertBlocks.LowCorner | plugin/tidesdb_spatial.cc:353-356 | the low corner is at offset 0 after an even number of flips and 2(4^m - 1)/3 after an odd one |
| SpatialRanges.SpanFits | plugin/tidesdb_spatial.cc:366-391 | the span of every pushed cell ends inside 64 bits |
| SpatialRanges.GridExactly | plugin/tidesdb_spatial.cc:333-347 | the cells of a query box are exactly those with a point of the box in them |
| SpatialRanges.PushCells | plugin/tidesdb_spatial.cc:347-358 | the two loops push the low-corner values of exactly the touched cells, without repetition |
| SpatialRanges.Merge | plugin/tidesdb_spatial.cc:366-391 | merged ranges are sorted, disjoint, not adjacent and cover exactly the union of the spans |
| SpatialRanges.Decompose | plugin/tidesdb_spatial.cc:333-391 | a box gives separated ranges holding exactly the spans of its cells, an empty one the whole curve |
| SpatialRanges.CellCoveredExactly | plugin/tidesdb_spatial.cc:349-391 | a touched cell's points are all covered if and only if it is even or backed by an odd predecessor in the box |
| SpatialRanges.PointCoveredExactly | plugin/tidesdb_spatial.cc:349-391 | a point of a touched cell is covered if and only if the cell is even, backed, or the point is not before its low corner |
| SpatialRanges.BoxPointCovered | plugin/tidesdb_spatial.cc:333-391 | the same for every point of every query box |
| SpatialRanges.BlockRangesExact | plugin/tidesdb_spatial.cc:353-354 | ranges that start at the blocks hold exactly the points of the touched cells |
| SpatialRanges.FirstPointMissed | plugin/tidesdb_spatial.cc:353-356 | an odd cell that is not backed has a point no range holds |
| SpatialRanges.LoneOddCellMissed | plugin/tidesdb_spatial.cc:353-356 | a box of one odd cell misses the cell's far corner |
| SpatialRanges.MissedPoint | plugin/tidesdb_spatial.cc:353-356 | a concrete box and a point in it that its ranges miss |
| SpatialScan.MbrMeaning | plugin/tidesdb_spatial.cc:282-324 | each predicate mode means what it says about the points of the two boxes |
| SpatialScan.Scan.constructor | plugin/ha_tidesdb.cc:6384-6412 | a new scan has the whole filter result before it |
| SpatialScan.Scan.ScanRange | plugin/ha_tidesdb.cc:8698-8762 | within a range the scan stops on the next match or past the range, losing nothing |
| SpatialScan.Scan.ScanNext | plugin/ha_tidesdb.cc:8684-8775 | returns the first pending entry, none exactly when nothing is pending |
| SpatialScan.Scan.Advance | plugin/ha_tidesdb.cc:8684-8775 | moving past a hit takes exactly that entry off what is pending |
| SpatialScan.ScanAll | plugin/ha_tidesdb.cc:8684-8775 | repeated calls return, once each and in key order, exactly what the plain filter wants |
| SpatialScan.WantedFromIs | plugin/ha_tidesdb.cc:8684-8775 | the filter is the ascending list of entries with a value in a range, a matching box and an existing row |
| SpatialQuery.ContainedEntryReached | plugin/ha_tidesdb.cc:5864-5867 | an entry within the query box is keyed inside the quantised box, and its key point is in the ranges if and only if the point is covered |
| SpatialQuery.Ranges | plugin/ha_tidesdb.cc:6384-6402 | the ranges of a query hold a point if and only if the mode scans everything or a touched cell's span holds it |
| SpatialQuery.Search | plugin/ha_tidesdb.cc:6366-6412 | the whole query returns, once each and in key order, exactly the matching existing rows whose key point the ranges hold |
| SpatialQuery.ContainmentReached | plugin/ha_tidesdb.cc:6384-6402 | an answer to a containment or equality query is reached if and only if its key point's cell is even, backed, or starts no later than the point |
| SpatialQuery.StrayReached | plugin/ha_tidesdb.cc:6384-6402 | a point outside the touched cells is reached if and only if the overrun of an odd touched cell covers it |
| SpatialQuery.LexKeepsOrder | plugin/tidesdb_spatial.cc:50-59 | the quantiser keeps the order of two doubles if and only if they are not zero and negative zero in this order |
| SpatialQuery.LexKeepsHigh | plugin/tidesdb_spatial.cc:50-59 | the quantiser keeps apart exactly the doubles that differ in their upper 32 bits |
| SpatialQuery.IntersectionMissed | plugin/ha_tidesdb.cc:6384-6402 | at the plugin's quantised values, a query and an intersecting entry the scan does not reach |
| SpatialQuery.NegativeZeroMissed | plugin/ha_tidesdb.cc:6384-6402 | at the plugin's quantised values, a point at negative zero that a box from zero does not reach |
| Wkb.ParseEnc | plugin/tidesdb_spatial.cc:173-233 | parsing the encoding of any tree within the limits gives the tree and consumes exactly its bytes |
| Wkb.EncParse | plugin/tidesdb_spatial.cc:173-233 | whatever is accepted is the encoding of the tree read, followed by the rest |
| Wkb.TypeCodes | plugin/tidesdb_spatial.cc:187-230 | the codes of the seven types and what follows them |
| Wkb.PointsOfExactly | plugin/tidesdb_spatial.cc:173-233 | the points taken in are those of every ring, line and part of the geometry, and no others |
| Wkb.EncLength | plugin/tidesdb_spatial.cc:173-233 | an encoding is 16 bytes a point, repeated points counted, and the headers and counts of the tree |
| Wkb.ReadPoint | plugin/tidesdb_spatial.cc:135-151 | reads 16 bytes if they are there and widens the box by a finite point |
| Wkb.ReadPoints | plugin/tidesdb_spatial.cc:155-168 | accepts exactly counted point sequences within the limit and widens the box by them |
| Wkb.ReadRings | plugin/tidesdb_spatial.cc:199-211 | the same for the rings of a polygon |
| Wkb.ParseGeometry | plugin/tidesdb_spatial.cc:173-233 | on any bytes it terminates inside the buffer, accepts exactly the encodings, and widens the box by the tree's points |
| Wkb.WidenTight | plugin/tidesdb_spatial.cc:143-149 | the box encloses every finite point and every side touches one; without finite points it stays empty |
| Wkb.ComputeMbr | plugin/tidesdb_spatial.cc:235-250 | yields a box exactly for a well-formed value whose geometry has a finite point, and then the least one around all of them |
| Wkb.MbrOfEncoding | plugin/tidesdb_spatial.cc:235-250 | the same for the encoding of any geometry within the limits |
| Xid.DecodeEncode | plugin/tidesdb_xid.h:97-135 | decoding an encoded XID gives the same identity with a zeroed tail |
| Xid.EncodeLayout | plugin/tidesdb_xid.h:97-112 | where format, lengths, global and branch part are in the bytes |
| Xid.EncodeDecode | plugin/tidesdb_xid.h:118-135 | every accepted byte string is the encoding of what it decodes to |
| Xid.SameBytes | plugin/tidesdb_xid.h:97-112 | encodings are equal if and only if the XIDs name the same transaction |
| Xid.PutU32 | plugin/tidesdb_xid.h:59-65 | writes four little-endian bytes in place and nothing else |
| Xid.PutU64 | plugin/tidesdb_xid.h:73-77 | writes eight little-endian bytes in place and nothing else |
| Xid.Serialize | plugin/tidesdb_xid.h:97-112 | refuses exactly bad lengths and short buffers, else writes the encoding and nothing past it |
| Xid.Deserialize | plugin/tidesdb_xid.h:118-135 | accepts exactly the encodings and fills the buffer, tail zeroed, or leaves it |
| Recovery.InDoubt.constructor | plugin/ha_tidesdb.cc:2583-2616 | keeps every recovered transaction with a non-empty XID, cursor at the start |
| Recovery.InDoubt.Recover | plugin/ha_tidesdb.cc:2635-2668 | hands out the readable XIDs from the cursor on; a short count leaves the cursor at the end |
| Recovery.InDoubt.Resolve | plugin/ha_tidesdb.cc:2672-2704 | finds the entry of that XID, keeps it on failure, else removes exactly it and mends the cursor |
| Recovery.TargetIsSame | plugin/ha_tidesdb.cc:2672-2704 | comparing bytes finds the first entry that names the same transaction, and misses none |
| Recovery.HandedOutFinds | plugin/ha_tidesdb.cc:2635-2704 | an identifier handed out comes from one entry, in order, and given back finds that entry |
| Recovery.HandsOutAll | plugin/ha_tidesdb.cc:2635-2668 | every entry passed that has a readable name is handed out |
| Recovery.RecoverOk | plugin/ha_tidesdb.cc:2635-2668 | a recover call hands out nothing twice and skips nothing readable |
| Recovery.ResolveOk | plugin/ha_tidesdb.cc:2672-2704 | a resolve call keeps that |
| Recovery.AllCallsOk | plugin/ha_tidesdb.cc:2635-2713 | over any interleaving of calls no entry is handed out twice or skipped, and each is listed or resolved |
| Recovery.ShortCountExhausts | plugin/ha_tidesdb.cc:2635-2668 | after a short count every readable entry has been handed out or resolved |
| Recovery.CollectedDistinct | plugin/ha_tidesdb.cc:2602-2616 | the list collected at open is exactly the named transactions, each once |
| TrxHooks.Context.constructor | plugin/ha_tidesdb.cc:2042-2060 | a new context has a fresh handle and generation 1 |
| TrxHooks.Context.Start | plugin/ha_tidesdb.cc:1989-2040 | get_or_create_trx's branches, including the reset fallback |
| TrxHooks.Context.Vote | plugin/ha_tidesdb.cc:2206-2282 | the prepare hook's new context and engine state in every case |
| TrxHooks.Context.Commit | plugin/ha_tidesdb.cc:2287-2420 | the commit hook's in every case |
| TrxHooks.Context.Rollback | plugin/ha_tidesdb.cc:2425-2483 | the rollback hook's in every case |
| TrxHooks.Context.BulkCommit | plugin/ha_tidesdb.cc:7557-7625 | the mid-load commit's in every case |
| TrxHooks.Context.FreeForBackup | plugin/ha_tidesdb.cc:1288-1297 | the backup command rolls back and frees its own handle, leaving needs_reset as it is |
| TrxHooks.Context.DeleteAllRows | plugin/ha_tidesdb.cc:7452-7467 | TRUNCATE rolls back and frees the handle and keeps generation and needs_reset |
| TrxHooks.Context.FlushBeforeDdl | plugin/ha_tidesdb.cc:9431-9470 | the flush before a column family changes |
| TrxHooks.StartGives | plugin/ha_tidesdb.cc:1989-2040 | a start succeeds with a handle and fails without one, and drops what is pending exactly when a handle is there and the flag is up |
| TrxHooks.VoteGives | plugin/ha_tidesdb.cc:2206-2282 | a vote that succeeds keeps what is pending and logs exactly that, one that fails leaves nothing pending or logged |
| TrxHooks.CommitGives | plugin/ha_tidesdb.cc:2287-2420 | a commit that succeeds applies what is pending as one batch and ends a logged one, one that fails applies nothing and keeps only a logged batch |
| TrxHooks.RollbackGives | plugin/ha_tidesdb.cc:2425-2483 | a rollback reports success, applies nothing, leaves nothing pending and takes back a logged batch if the engine can |
| TrxHooks.BulkGives | plugin/ha_tidesdb.cc:7557-7625 | a mid-load commit that succeeds applies what is open as one batch and leaves nothing open, one that fails applies nothing |
| TrxHooks.FlushGives | plugin/ha_tidesdb.cc:9431-9470 | a flush applies what a connection that wrote has open if the commit succeeds, and always lets go of the handle |
| TrxHooks.DropGives | plugin/ha_tidesdb.cc:7452-7467 | TRUNCATE and the backup command let go of the handle and apply nothing |
| TwoPhase.HookSafe | plugin/ha_tidesdb.cc:1989-2483 | every hook keeps the engine invariant and takes back nothing applied, decided or discarded |
| TwoPhase.HookConfined | plugin/ha_tidesdb.cc:1989-2483 | a hook touches only its own handle and record, and a surviving (handle, generation) pair means the same transaction |
| TwoPhase.HookTurn | plugin/ha_tidesdb.cc:1989-2483 | after a hook the connection's handle is in a state the next call expects |
| TwoPhase.HookInv | plugin/ha_tidesdb.cc:1989-2483 | every hook on every connection keeps the whole invariant |
| TwoPhaseRuns.CloseInv | plugin/ha_tidesdb.cc:2488-2513 | closing a connection keeps it; a prepared batch stays in the log |
| TwoPhaseRuns.PowerLossInv | plugin/ha_tidesdb.cc:2583-2616 | a crash at any point keeps it |
| TwoPhaseRuns.ReopenInv | plugin/ha_tidesdb.cc:2583-2616 | the next open lists exactly the logged batches, each under a readable name |
| TwoPhaseRuns.ResolveInv | plugin/ha_tidesdb.cc:2672-2713 | resolving by XID keeps it |
| TwoPhaseRuns.StepInv | plugin/ha_tidesdb.cc:1989-2713 | every step keeps the invariant and what cannot be taken back |
| TwoPhaseRuns.StepApplies | plugin/ha_tidesdb.cc:1989-2713 | every step appends to what is visible exactly the batch it commits, and any other step nothing |
| TwoPhaseRuns.StepLogs | plugin/ha_tidesdb.cc:1989-2713 | every step adds to the log exactly the batch voted for and takes out exactly the batch decided |
| TwoPhaseRuns.ResolveEnds | plugin/ha_tidesdb.cc:2672-2713 | a resolution by XID that succeeds ends the batch it names, committed with exactly its writes visible, rolled back with nothing |
| TwoPhaseRuns.ResolvedStays | plugin/ha_tidesdb.cc:2706-2709 | a batch committed by XID is visible in every later state of every run |
| TwoPhaseRuns.ElsewhereSame | plugin/ha_tidesdb.cc:1989-2713 | a step elsewhere leaves a connection and its handle as they are |
| TwoPhaseRuns.VisibleOnlyOnceDecided | plugin/ha_tidesdb.cc:2206-2366 | a prepared batch becomes visible only after a commit decision, with the writes it voted for, and nothing twice |
| TwoPhaseRuns.RolledBackNeverVisible | plugin/ha_tidesdb.cc:2455-2482 | a prepared batch decided against is never visible, whatever follows |
| TwoPhaseRuns.DiscardedStays | plugin/ha_tidesdb.cc:2455-2482 | a discarded batch never comes back |
| TwoPhaseRuns.UndecidedReappears | plugin/ha_tidesdb.cc:2583-2668 | an undecided batch is handed out by the first long enough recover after a crash and open |
| TwoPhaseRuns.EmptyVoteEnds | plugin/ha_tidesdb.cc:2325-2340 | a transaction whose vote found an empty batch is, in every later state of every run, applied exactly once and never logged, decided about or in doubt |
| TwoPhaseRuns.OnlyUndoOverrules | plugin/ha_tidesdb.cc:2455-2482 | a commit decision is overruled by a step if and only if it is a successful rollback of the still prepared transaction |
| TwoPhaseRuns.CommitDecisionsKept | plugin/ha_tidesdb.cc:2342-2366 | all commit decisions of a run are applied or logged if and only if none was overruled |
| TwoPhaseRuns.VotedThenOverruled | plugin/ha_tidesdb.cc:2342-2482 | from any state in which a connection has written, a vote, a failing commit and a rollback lose the decision |
| TwoPhaseRuns.OverruledRun | plugin/ha_tidesdb.cc:2342-2482 | a concrete run from the first open in which a commit decision is overruled |
| TwoPhaseRuns.KeptIteratorIsCurrent | plugin/ha_tidesdb.cc:5989-6011 | an iterator kept under the current handle and generation belongs to the running, unfinished transaction |
| BufferedWrites.WriteSurvivesExactly | plugin/ha_tidesdb.cc:1994-2040 | a first statement's write survives the second statement's start if and only if needs_reset was down |
| BufferedWrites.BackupLosesWrite | plugin/ha_tidesdb.cc:1288-1297 | after a finished transaction and a backup, a two-statement transaction commits successfully and applies nothing |
| BufferedWrites.HookCalm | plugin/ha_tidesdb.cc:1989-2483 | a hook leaves the flag up without a finished handle if and only if it is one of the three stranding events |
| BufferedWrites.WritesKept | plugin/ha_tidesdb.cc:2006-2040 | in runs without those events no statement start changes what an open transaction has buffered |
| WriteHistory.HookKept | plugin/ha_tidesdb.cc:1989-2483 | every hook keeps: what is pending is what the transaction wrote and the connection has not let go of |
| WriteHistory.StepOnRecord | plugin/ha_tidesdb.cc:1989-2713 | so does every step of the system |
| WriteHistory.GoneExactly | plugin/ha_tidesdb.cc:1989-2483 | writes are gone from an open transaction if and only if some call let go of them after they were accepted and the account was not cleared since |
| WriteHistory.CommitAppliesWhatIsLeft | plugin/ha_tidesdb.cc:2287-2420 | after any run a successful commit applies exactly what is left, all the writes if and only if no call let go of one; the logged batch of a prepared transaction whose rollback failed |
| WriteHistory.VoteLogsWhatIsLeft | plugin/ha_tidesdb.cc:2206-2282 | after any run a successful vote logs exactly that under the server's name |
| PrefixSeek.FindDuplicate | plugin/ha_tidesdb.cc:5738-5756 | one seek and one comparison hit if and only if some key has the prefix |
| PrefixSeek.PostingKeyInjective | plugin/tidesdb_fts.cc:137-148 | posting keys are equal if and only if term and primary key are |
| PrefixSeek.SeekBucket | plugin/ha_tidesdb.cc:8906-8915 | nothing of a length bucket is before the seek and the bucket is one run from there |
| PrefixSeek.ScanBucket | plugin/ha_tidesdb.cc:8906-8950 | the inner wildcard loop collects exactly one term length's postings with the stem |
| PrefixSeek.FillPrefix | plugin/ha_tidesdb.cc:8875-8880 | the copy fits its buffer if and only if the term has at most 512 bytes, and then holds its length and its bytes |
| PrefixSeek.ScanTerm | plugin/ha_tidesdb.cc:8954-8981 | a term scan is defined if and only if the term fits, and returns, in order, exactly the postings of the term |
| PrefixSeek.ScanWildcard | plugin/ha_tidesdb.cc:8895-8953 | defined if and only if the stem fits; the bucket loop returns exactly the postings of the terms with the stem and a byte length up to the limit |
| PrefixSeek.WordReached | plugin/ha_tidesdb.cc:8901-8906 | an indexed word with the stem is reached if and only if its bytes are within the limit on characters |
| PrefixSeek.AccentedWordMissed | plugin/ha_tidesdb.cc:8901-8906 | a word of 84 two-byte characters is indexed by default and not found |
| PrefixSeek.ShortWordsFit | plugin/tidesdb_fts.cc:443-458 | tokenized words of up to 128 characters of up to four bytes fit the term buffers |
| PrefixSeek.NextWord | plugin/tidesdb_fts.cc:652-693 | a boolean query's unquoted word is everything up to its end, however long, less a final asterisk |
| PrefixSeek.WordEndIs | plugin/tidesdb_fts.cc:658-672 | a word ends only at the end of the query or at a byte that cannot be part of it |
| PrefixSeek.LongBooleanWord | plugin/tidesdb_fts.cc:652-693 | a query of n letters is one term of n bytes, which fits if and only if n is at most 512 |
| ReverseSeek.ReadCurrent | plugin/ha_tidesdb.cc:5494-5530 | the first row from the iterator on, metadata stepped over forwards |
| ReverseSeek.IndexReadReverse | plugin/ha_tidesdb.cc:6301-6357 | both branches of a backward read on the primary key, guard and step back included |
| ReverseSeek.ReverseExact | plugin/ha_tidesdb.cc:6301-6357 | without the guard the last row not above the bound, or where only metadata is, the first row of the table |
| ReverseSeek.PartialLast | plugin/ha_tidesdb.cc:6316-6339 | with part of the key, the last row of the group, and none if and only if the group is empty |
| ReverseSeek.FullLast | plugin/ha_tidesdb.cc:6316-6356 | with the full key, the row if it is there; a foreign one if and only if it is not, the table has a row and a key sorts below |
| ReverseSeek.FullKeyForeign | plugin/ha_tidesdb.cc:6340-6356 | concrete tables in which the row before and the row after come back |
| ReverseSeek.FullBefore | plugin/ha_tidesdb.cc:6340-6356 | with the full key, BEFORE_KEY returns the last row strictly below, the other flags the row or the last below |
| ReverseSeek.PartialBefore | plugin/ha_tidesdb.cc:6316-6326 | with part of the key, BEFORE_KEY returns a row of the group if and only if it has one, the last |
| ReverseSeek.AbovePad | plugin/ha_tidesdb.cc:6437-6447 | a key with the prefix sorts above the padded prefix if and only if it extends it |
| ReverseSeek.IndexReadSecondary | plugin/ha_tidesdb.cc:6437-6507 | the backward read on a secondary index with its pushed condition |
| ReverseSeek.SecondaryExact | plugin/ha_tidesdb.cc:6437-6507 | it returns the last entry not above the bound that the condition does not skip |
| ReverseSeek.SecondaryLast | plugin/ha_tidesdb.cc:6437-6507 | the last reachable entry of the group; a foreign one if and only if none is reachable and one sorts below |
| ReverseSeek.SecondaryForeign | plugin/ha_tidesdb.cc:6437-6507 | concrete indexes in which a foreign entry comes back and in which a group's entry is passed over |
| FullText.ValueReads | plugin/tidesdb_fts.cc:150-155 | a stored value reads back as the term count and document length |
| FullText.MirrorsAt | plugin/tidesdb_fts.cc:137-155 | a posting is there exactly when the document has the term, with its count and the document's length |
| FullText.CountTerms | plugin/ha_tidesdb.cc:5819-5820 | counts how often every term is in the document, modulo the 16-bit counter |
| FullText.WordCountAdds | plugin/ha_tidesdb.cc:5820-5821 | a document's length counts every word and adds up over its parts, modulo the 32-bit counter |
| FullText.OpMirrors | plugin/ha_tidesdb.cc:5817-7378 | a statement keeps the postings the image of the documents if and only if it leaves no term of a document it writes over |
| FullText.RunMirrors | plugin/ha_tidesdb.cc:5817-7378 | over any run the postings are the image throughout if and only if no statement does |
| FullText.OverwriteGoesWrong | plugin/ha_tidesdb.cc:5817-5847 | an insert over a document that leaves a stale posting and counts two documents |
| FullText.OpSpare | plugin/tidesdb_fts.cc:184-211 | a statement never lowers the counters' excess over the truth and keeps it if and only if no clamp fires and no document is written over |
| FullText.RunCounted | plugin/tidesdb_fts.cc:184-211 | after any run of statements the counters are true if and only if no clamp ever fired and no document was ever written over another |
| FullText.OutsideBulkNeverClamps | plugin/tidesdb_fts.cc:184-211 | without a delete or change inside a bulk insert no clamp fires |
| FullText.FullTextIndex.constructor | plugin/tidesdb_fts.cc:157-182 | an index without documents has no postings and zero counters |
| FullText.FullTextIndex.UpdateMeta | plugin/tidesdb_fts.cc:184-211 | adds to both counters, clamped at zero |
| FullText.FullTextIndex.DropTerms | plugin/ha_tidesdb.cc:7071-7078 | deletes exactly the document's postings for terms that disappear, every other key as it was |
| FullText.FullTextIndex.PutTerms | plugin/ha_tidesdb.cc:7080-7101 | writes exactly the postings that are not there already, every other key as it was |
| FullText.FullTextIndex.Insert | plugin/ha_tidesdb.cc:5817-5847 | postings and counters after an insert, bulk or not; still the image if and only if no term of a document written over is left |
| FullText.FullTextIndex.Delete | plugin/ha_tidesdb.cc:7365-7378 | postings stay the image; the counters are taken down and clamped |
| FullText.FullTextIndex.Update | plugin/ha_tidesdb.cc:7031-7108 | the term-level difference keeps the postings the image of the documents; the counters move by the difference, clamped |
| FullText.FullTextIndex.Move | plugin/ha_tidesdb.cc:7039-7062 | every posting moves to the new primary key; still the image if and only if no term of a document there is left |
| FullText.FullTextIndex.StartBulk | plugin/ha_tidesdb.cc:7629-7643 | starts with nothing owed |
| FullText.FullTextIndex.EndBulk | plugin/ha_tidesdb.cc:7645-7681 | writes what is owed once |
| FullText.BulkReplaceMiscounts | plugin/ha_tidesdb.cc:5838-5847 | an insert, delete and insert of one row inside a bulk insert ends with two documents counted for one |
| SecondaryIndex.MirrorsIsImage | plugin/ha_tidesdb.cc:4190-4197 | an index in step holds exactly the keys of the rows |
| SecondaryIndex.PutMirrors | plugin/ha_tidesdb.cc:5875-5884 | adding a row's key keeps an index in step if and only if no row with other bytes is overwritten |
| SecondaryIndex.RemoveMirrors | plugin/ha_tidesdb.cc:7401-7411 | removing a row's key keeps an index in step, no other row's key being the same |
| SecondaryIndex.SkipMirrors | plugin/ha_tidesdb.cc:7162-7179 | leaving an index alone is right if and only if the row's index bytes did not change |
| SecondaryIndex.UpdateMirrors | plugin/ha_tidesdb.cc:7160-7205 | the update's branch for an index is right if and only if skipped bytes are equal and nothing stale remains |
| SecondaryIndex.MarkedIsSafe | plugin/ha_tidesdb.cc:6877-6905 | with changed columns in write_set and a free or unchanged primary key every update is safe |
| SecondaryIndex.PutUnique | plugin/ha_tidesdb.cc:5875-5884 | a put keeps unique keys unique if and only if no other row has the new bytes |
| SecondaryIndex.UpdateUnique | plugin/ha_tidesdb.cc:6849-6965 | an update keeps unique keys unique if and only if no other row that stays has the new bytes |
| SecondaryIndex.UpdateBreaksUnique | plugin/ha_tidesdb.cc:6849-6965 | a concrete update after which two rows share a unique key |
| SecondaryIndex.UpdateLeavesStaleKey | plugin/ha_tidesdb.cc:6849-7205 | a concrete update onto a taken primary key that leaves a stale index key |
| SecondaryIndex.StatementInStep | plugin/ha_tidesdb.cc:5535-7413 | from indexes in step any statement keeps them so if and only if it is safe, unique keys or not |
| SecondaryIndex.StatementUnique | plugin/ha_tidesdb.cc:5535-7413 | from unique keys that are unique any statement keeps them so if and only if its bytes are free, indexes in step or not |
| SecondaryIndex.CheckedInsertFine | plugin/ha_tidesdb.cc:5662-5758 | an insert with its checks on is both |
| SecondaryIndex.TakenKeyRefused | plugin/ha_tidesdb.cc:5659-5674 | a plain insert under a taken primary key, or a REPLACE on a table with indexes, is refused and changes nothing |
| SecondaryIndex.RefusedExactly | plugin/ha_tidesdb.cc:5659-5758 | an insert is refused if and only if its primary key is looked up and taken, or unique keys are checked and a row has its bytes |
| SecondaryIndex.RowsAfter | plugin/ha_tidesdb.cc:5535-7413 | where the row of a statement is afterwards, and that no other row changes |
| SecondaryIndex.StatementFiled | plugin/ha_tidesdb.cc:6877-6905 | rows stay filed under their own primary key if and only if an update that skips it leaves its bytes alone |
| SecondaryIndex.MarkedGoesHome | plugin/ha_tidesdb.cc:6877-6905 | an update that marks what it changes goes to the primary key of its new row |
| SecondaryIndex.PrefixMeansSameBytes | plugin/ha_tidesdb.cc:5738-5756 | a key with the new row's bytes as prefix exists if and only if a row has the same index bytes |
| SecondaryIndex.Table.constructor | plugin/ha_tidesdb.cc:4190-4197 | an empty table is in step |
| SecondaryIndex.Table.CheckDuplicates | plugin/ha_tidesdb.cc:5640-5758 | reports a duplicate primary key if and only if the flags ask for the look-up and a row has it, and a unique key that exists |
| SecondaryIndex.Table.WriteRow | plugin/ha_tidesdb.cc:5535-5885 | the whole table after an insert; still in step if and only if nothing stale is left, still unique if and only if the bytes are free |
| SecondaryIndex.Table.UpdateRow | plugin/ha_tidesdb.cc:6849-7205 | the whole table after an update; still in step if and only if it is safe, still unique if and only if no other row that stays has the new bytes |
| SecondaryIndex.Table.DeleteRow | plugin/ha_tidesdb.cc:7230-7413 | the row and exactly its keys go; in step and unique as before |
| SecondaryIndex.RunInStep | plugin/ha_tidesdb.cc:5535-7413 | over any sequence of inserts, updates and deletes every index is the image of the data throughout if and only if every statement is safe |
| SecondaryIndex.OrdinaryRunInStep | plugin/ha_tidesdb.cc:5535-7413 | with checks on, changed columns marked and primary keys kept or free, every index is the image of the data throughout |
| SecondaryIndex.OrdinaryRunUnique | plugin/ha_tidesdb.cc:5535-7413 | and unique keys are unique throughout if and only if no update writes bytes another row keeps |
| SecondaryIndex.RunExact | plugin/ha_tidesdb.cc:5535-7413 | both throughout if and only if every statement is safe with free bytes |
| IndexBuild.ScanHolds | plugin/tidesdb_inplace_alter.cc:395-624 | where a row's key is, open or committed, at any point of the scan |
| IndexBuild.SeekFinds | plugin/tidesdb_inplace_alter.cc:612-620 | re-seeking the last key lands on it, so the scan goes on at the next entry |
| IndexBuild.BuiltIsImage | plugin/tidesdb_inplace_alter.cc:395-639 | the index is the image of the table if and only if every row was reached, put and committed |
| IndexBuild.LostBatch | plugin/tidesdb_inplace_alter.cc:566-577 | a failed first batch commit leaves rows out |
| IndexBuild.NothingLost | plugin/tidesdb_inplace_alter.cc:395-639 | with every put and commit successful a scan to the end keeps every row |
| IndexBuild.CountsAreTotals | plugin/tidesdb_inplace_alter.cc:480-492 | what is counted for an added full-text index is the number of documents scanned and of words in them |
| IndexBuild.DocsMatchData | plugin/tidesdb_inplace_alter.cc:480-492 | those documents are one per row of the table |
| IndexBuild.AddRow | plugin/tidesdb_inplace_alter.cc:449-550 | the unique check against what was seen, then the put, for every added index |
| IndexBuild.EndBatch | plugin/tidesdb_inplace_alter.cc:566-621 | commits the batch and resumes at the entry after the last one; gives up exactly when reset and begin, or the new iterator, fail |
| IndexBuild.ScanRow | plugin/tidesdb_inplace_alter.cc:395-624 | one row keeps the scan's state exact, or reports a duplicate that exists, a kill, or a restart that failed |
| IndexBuild.Build | plugin/tidesdb_inplace_alter.cc:350-686 | each row is visited once; the new index is the image exactly when nothing was lost; duplicate exactly when two rows share bytes; counters only after the last commit |
| RowCodec.WithBitReads | plugin/ha_tidesdb.cc:5335-5342 | setting or clearing a null bit reads back and leaves the other bits |
| RowCodec.FillReads | plugin/ha_tidesdb.cc:5316-5342 | added columns get their default value and null bit, the others keep theirs |
| RowCodec.UnpackReads | plugin/ha_tidesdb.cc:5344-5370 | unpacking gives back the packed values of the shared non-null columns |
| RowCodec.HeaderReads | plugin/ha_tidesdb.cc:5197-5210 | the header reads back as the stored bitmap size and field count |
| RowCodec.ReadsBack | plugin/ha_tidesdb.cc:5277-5370 | a row read under a schema extended or cut at the end has its stored values on shared columns and defaults on added ones |
| RowCodec.CutRowReads | plugin/ha_tidesdb.cc:5344-5370 | a row cut off between two columns reads back before the cut and keeps the buffer after it |
| RowCodec.BadHeaderBlanks | plugin/ha_tidesdb.cc:5277-5300 | a short or foreign header blanks the record |
| RowCodec.SerializeRow | plugin/ha_tidesdb.cc:5197-5234 | the loop writes the format |
| RowCodec.FillDefaults | plugin/ha_tidesdb.cc:5316-5342 | the loop fills the added columns |
| RowCodec.CopiedPacks | plugin/ha_tidesdb.cc:5355-5361 | a copied column reads back if and only if its values have its width |
| RowCodec.UnpackFields | plugin/ha_tidesdb.cc:5344-5370 | the loop unpacks, stopping where the bytes run out before a column or inside a copied one |
| RowCodec.DeserializeRow | plugin/ha_tidesdb.cc:5277-5370 | reads any bytes as the format says: blank record on a bad header, unchanged on a short bitmap |
| RowCodec.TrailingDropOnly | plugin/tidesdb_inplace_alter.cc:136-150 | an instant drop passes if and only if the remaining columns are the first ones |

## Left out

- The engine, handler, field and collation code is not part of this model; it enters through the assumptions above.
- System variables, status output, logging, backup copying, object-store stubs, encryption, compression, TTL and statistics would only add easy members.
- BM25 scores and the rounding of centroids: floating point without an exact specification; box ranges start from quantised coordinates.
- The operators of boolean full-text queries, phrase matching and the tokenizer: a document enters as its list of tokens.
- Column decoding from index keys, covering reads and the VARBINARY key form, which is not injective.
- Full-text and spatial agreement when an update changes the primary key but not the indexed column.
- Isolation levels: they do not change which batches are prepared, applied or discarded.
- Null pointer arguments of the XID functions.
- CF naming, reconciliation and the atomic DDL log.
- Running out of memory for a lock entry; a kill is a nondeterministic exit of the wait loop, and a wakeup may be spurious.
- SpatialQuery.Search: real centres and any monotone quantiser stand for the doubles, and every entry was written by the plugin.
- SpatialQuery.ContainmentReached: negative zero, which is not a real number of its own and which the plugin puts below zero; SpatialQuery.NegativeZeroMissed shows what it does.
- WriteHistory.CommitAppliesWhatIsLeft: does not model user savepoints, whose rollback takes writes back inside the engine.
- TwoPhaseRuns.RolledBackNeverVisible: speaks of batches that were durably prepared; a batch committed in one phase is not decided in two.
- FullText.FullTextIndex.Insert: terms are at most 512 bytes long, since longer ones are cut and may collide.
- IndexBuild.Build: does not model the postings of an added full-text index, which FullText.FullTextIndex.AddPostings covers row by row, nor a spatial index, which the build does not fill.
- IndexBuild.Build: a data key always fits the buffer that remembers it.
- PrefixSeek.ScanTerm: every key of the column family was written by fts_build_key with a non-empty primary key.
- PrefixSeek.ScanTerm: says only that it is undefined what the code does with a term of more than 512 bytes, which it writes past the buffer.
- PrefixSeek.ScanWildcard: the same for a stem.
- PrefixSeek.NextWord: lower-casing, which may shorten the term.
- ReverseSeek.IndexReadSecondary: a row that a key points to exists, which SecondaryIndex.RunInStep is about.
- RowCodec.UnpackFields: a column that is not copied may read past the end, as in the code; what it reads there is up to its unpacking.
- RowCodec.ReadsBack: rows whose columns were dropped and others added in their place, or added in the middle; the stored field count cannot tell these apart.
