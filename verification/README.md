# Verification of the ContextFS storage and runtime core

ContextFS is a content-addressed file system whose branches can be checkpointed,
rolled back and merged while agents work in them.  This Dafny project models its
stateful core and proves what the rest of the system relies on:

- **BLAKE3** (`Bits`, `Blake3Spec`, `Blake3Chunk`, `Blake3Wide`, `Blake3Hasher`): the
  incremental hasher with its lazily merged stack and its wide subtree compressor equals
  the recursive tree of the specification, for every split of the input and every SIMD
  degree.  The compression function is any function.
- **Open files** (`WriteBuffer`, `FileHandle`, `FlushTable`): the interval overlay is the
  per-byte last-writer model; exactly when a handle is a POSIX file, and exactly when a
  flush can be seen.
- **Garbage collection** (`GcGraph`, `GcMark`, `GcRun`, `GcHandshake`, `DaemonGc`): marking
  computes the least closed set; the sweep takes exactly what is old, unmarked and not
  pending; and beside any number of concurrent writers no live object is lost, exactly
  when the start time is read within the two-second fence.
- **Trees and checkpoints** (`Bytes`, `TreeCodec`, `TreeSerialize`, `TreeRoundTrip`,
  `Rebuild`, `Checkpoint`, `CheckpointRuns`, `CommitCodec`, `Rollback`): the bottom-up
  serialization gives back exactly what a chain of directories leads to; exactly when a
  checkpoint publishes, and exactly what is durable and pending afterwards; a rollback
  shows the checkpoint.
- **Working tree and ingestion** (`OrderedMap`, `Paths`, `WorkingTreeSpec`, `WorkingTree`,
  `Bootstrap`, `ComingBack`): the two layers refine one flat map, and exactly when
  nothing removed comes back.
- **Routing** (`BranchRouter`, `RoutingProtocol`): both caches agree with the uncached
  lookup in every interleaving.
- **Merging** (`CommitGraph`, `BranchMerge`): the best common ancestor and the three-way
  merge with its structural conflicts.
- **Runtime snapshot and restore** (`SupervisorState`, `Supervisor`, `SnapshotProtocol`,
  `RestoreProtocol`, `LateAcknowledgement`): observation and answer of boundaries, and
  hand-off, acknowledgement, abort and retirement of restores, over whole runs.
- **Records** (`LineCodec`, `RecordCodec`, `AgentState`, `RuntimeState`): parsing undoes
  printing, exactly for the well-formed records.

Objects that the source updates in place are classes here.  Their methods are proved
against functions of the state before, and the lemmas and run theorems are about those
functions.  Concurrent parts are state machines whose steps are the source's locked
sections.  `dafny verify dfyconfig.toml` checks everything.

Where the code and the intent around it differ, the model follows the code:

- A file truncated below its base size and grown again shows base bytes instead of zeros
  (`FileHandle.TruncateThenGrowShowsBase`, with the exact condition in
  `FileHandle.PosixExactly`), and a flush in between changes that
  (`FileHandle.FlushInvisibleExactly`).
- A rollback whose ref write fails has already replaced the tree and turned the handles
  stale (`Rollback.RollbackLocked`).
- A checkpoint whose ref write fails does not put drained hashes back: what was pending
  stays so exactly when the ref is not reached (`Checkpoint.CheckpointLocked`), and
  `CheckpointRuns.FailedRefLosesHashes` is a run that loses one.  Draining takes other
  branches' hashes too: `Checkpoint.DrainedExactly` says exactly what is durable then, and
  in `CheckpointRuns.TwoBranchRun` a second branch publishes a file whose blob is not.
- A late acknowledgement of an earlier restore is accepted for a later one with the same
  target generation, because only the generation is compared
  (`LateAcknowledgement.LateGrandchildIsAccepted`), and it happens exactly when such a
  restore is pending (`LateAcknowledgement.TakenForAnotherExactly`).
- The length test of a commit multiplies the claimed number of parents in 32 bits: with
  2^27 parents it passes and the body is read past its end
  (`CommitCodec.WrappedCountReadsPast`; exactly when in `CommitCodec.ReadsStayInsideExactly`).
- A directory rename probes only its two ends.  A child that it moves onto a source path
  nobody has looked at comes back after its removal (`ComingBack.RenamedChildComesBack`;
  exactly when in `ComingBack.RenameOrdinarilySafeExactlyWhenCareful`).
- Serialization drops empty leaves and everything below a path that is no directory
  (`TreeRoundTrip.ComesBackExactly`).
- The search for a common ancestor fails whenever some commit of either history is
  unreadable, even one beyond every common ancestor (`CommitGraph.FindCommonAncestor`).

## Model

| member | source | states |
|---|---|---|
| `Bits.Popcnt` | include/blake3/blake3_impl.h:132-143 | clearing the lowest set bit until none is left counts exactly the one bits |
| `Bits.HighestOne` | include/blake3/blake3_impl.h:102-129 | the six-step binary search finds the position of the highest set bit of every nonzero 64-bit word |
| `Bits.SearchHalf` | include/blake3/blake3_impl.h:120-127 | one step of the search: masking the upper half keeps "position found so far plus position in the rest" |
| `Bits.RoundDownToPowerOf2` | include/blake3/blake3_impl.h:147-149 | the result is a power of two, at most x and more than half of it, and 1 for zero |
| `Bits.ClearLowestBit` | include/blake3/blake3_impl.h:136-141 | x AND (x - 1) is smaller than x and has one set bit less |
| `Bits.MaskIsRemainder` | include/blake3/blake3.c:542-544 | masking with a power of two less one is the remainder, so the alignment test of the update loop tests divisibility |
| `Blake3Spec.LeftLenShape` | include/blake3/blake3.c:162-167 | the left subtree is a power-of-two number of whole chunks, less than the input and at least half of it (section 2.1 of the BLAKE3 specification) |
| `Blake3Spec.LeftLenIs` | include/blake3/blake3.c:162-167 | the left subtree of a power of two of chunks followed by at most as much again is exactly that power of two |
| `Blake3Spec.TreeJoins` | include/blake3/blake3.c:425-435 | two adjacent subtrees, the left a power of two of chunks and the right no longer, make the recursive tree of their concatenation |
| `Blake3Spec.ChunkCvPrefix` | include/blake3/blake3.c:119-145 | a chunk's running chaining value depends only on the blocks already absorbed |
| `Blake3Spec.OnlyTheRootHasTheRootFlag` | include/blake3/blake3.c:90-117 | two compression functions that differ only under the ROOT flag give the same tree nodes, and no node's flags hold it: only the output step compresses with it |
| `Blake3Chunk.ChunkState.Reset` | include/blake3/blake3.c:30-37 | a reset chunk state has absorbed nothing and has the new counter |
| `Blake3Chunk.ChunkState.FillBuf` | include/blake3/blake3.c:44-53 | takes as much as fits and keeps the buffer the unprocessed tail of what was absorbed |
| `Blake3Chunk.ChunkState.Update` | include/blake3/blake3.c:119-145 | absorbs any input up to a chunk's end, in any split, so that the state stands for the concatenation |
| `Blake3Chunk.ChunkState.UpdateBlocks` | include/blake3/blake3.c:132-141 | compresses whole blocks but always keeps the last one back |
| `Blake3Chunk.ChunkState.GetOutput` | include/blake3/blake3.c:147-152 | the output of a partial or full chunk is the specification's chunk node |
| `Blake3Chunk.HashOne` | include/blake3/blake3_portable.c:125-143 | folds the blocks with the start flag on the first and the end flag on the last |
| `Blake3Chunk.HashMany` | include/blake3/blake3_portable.c:145-160 | each input's chaining value lands in its own slot with its own counter, and no other slot changes |
| `Blake3Chunk.FullChunkRun` | include/blake3/blake3.c:173-210 | sixteen blocks with chunk flags are a whole chunk's chaining value |
| `Blake3Chunk.ParentRun` | include/blake3/blake3.c:217-250 | one block with the parent flag and counter zero is a parent node's chaining value |
| `Blake3Wide.CompressChunksParallel` | include/blake3/blake3.c:173-210 | writes the chaining values of all chunks, a short last one included, in order and nothing beyond them |
| `Blake3Wide.CompressParentsParallel` | include/blake3/blake3.c:217-250 | joins neighbours pairwise, carries an odd last one over, and touches nothing else |
| `Blake3Wide.PairUpKeepsTop` | include/blake3/blake3.c:217-250 | joining neighbours changes neither the top of the tree over a row nor, above two entries, its two children |
| `Blake3Wide.ChunkRowTop` | include/blake3/blake3.c:269-337 | the tree over the row of chunk chaining values is the specification's tree of the input |
| `Blake3Wide.TreeSplit` | include/blake3/blake3.c:162-167 | every input longer than a chunk is the parent of the trees of its left and right part |
| `Blake3Wide.LeftFillsItsSlots` | include/blake3/blake3.c:296-322 | for every power-of-two SIMD degree the left child fills exactly `degree` slots, so the right child's results follow without a gap |
| `Blake3Wide.JoinWidths` | include/blake3/blake3.c:325-336 | the widths of the children give a width the parent promises: at most max(degree, 2), at least two above one chunk |
| `Blake3Wide.CompressChildren` | include/blake3/blake3.c:295-322 | both recursive calls together leave one gapless row whose top is the tree's |
| `Blake3Wide.CompressSubtreeWide` | include/blake3/blake3.c:269-337 | for every degree and input returns at most max(degree, 2) chaining values whose tree is the input's tree and whose top pair are its children |
| `Blake3Wide.Condense` | include/blake3/blake3.c:374-378 | the loop that halves a row down to two entries keeps the top pair |
| `Blake3Wide.CompressSubtreeToParentNode` | include/blake3/blake3.c:349-381 | yields exactly the left and the right child's chaining value of the tree's top node |
| `Blake3Hasher.DescendingPopCount` | include/blake3/blake3.c:425-435 | a stack of distinct powers of two, largest at the bottom, has as many entries as the chunk count has one bits |
| `Blake3Hasher.LazyPopCount` | include/blake3/blake3.c:425-435 | a lazily merged stack is never shorter than that, and equally long exactly when its sizes are the binary digits |
| `Blake3Hasher.ChunkCountBound` | include/blake3/blake3.h:38 | below 2^64 bytes the chunk count has at most 54 one bits, so stack plus one never exceeds the array |
| `Blake3Hasher.StackMerge` | include/blake3/blake3.c:425-435 | merging the equal top pair keeps what the stack stands for |
| `Blake3Hasher.RollUp` | include/blake3/blake3.c:638-644 | joining the top of the stack with the output so far keeps the tree of everything above |
| `Blake3Hasher.Hasher.constructor` | include/blake3/blake3.c:383-390 | a new hasher has absorbed nothing |
| `Blake3Hasher.Hasher.Reset` | include/blake3/blake3.c:648-651 | a reset hasher has absorbed nothing, whatever it held |
| `Blake3Hasher.Hasher.MergeCvStack` | include/blake3/blake3.c:425-435 | afterwards the stack has exactly popcount(chunks) entries, the binary digits of the count, and stands for the same bytes |
| `Blake3Hasher.Hasher.PushCv` | include/blake3/blake3.c:468-474 | merges first, then pushes; the stack stands for the old bytes followed by the new subtree and never overflows |
| `Blake3Hasher.Hasher.SubtreeLen` | include/blake3/blake3.c:525-544 | a whole power of two of chunks that fits the input and is aligned to the chunks before it, and no larger one is |
| `Blake3Hasher.Hasher.AbsorbSubtree` | include/blake3/blake3.c:545-570 | one subtree of any power of two of chunks is absorbed, as an unmerged pair when it has two halves |
| `Blake3Hasher.Hasher.Update` | include/blake3/blake3.c:476-583 | absorbs any input of any length: the contents grow by exactly it, and the lazy-merge invariant holds again |
| `Blake3Hasher.Hasher.UpdateSubtrees` | include/blake3/blake3.c:524-582 | the subtree loop and the rest that stays in the chunk state |
| `Blake3Hasher.Hasher.RootOutput` | include/blake3/blake3.c:604-644 | rolls the stack up to the top node of the recursive tree; with an empty chunk and a non-empty stack there are always two entries to start from |
| `Blake3Hasher.Hasher.FinalizeSeek` | include/blake3/blake3.c:604-646 | for every seek position and length the output is the recursive tree hash of the contents (sections 2.4 to 2.6 of the specification) |
| `Blake3Hasher.Hasher.Finalize` | include/blake3/blake3.c:599-602 | the same from position zero |
| `Blake3Hasher.OutputRootBytes` | include/blake3/blake3.c:90-117 | the partial first block, the whole blocks and the partial last one make one contiguous stretch of root output |
| `Blake3Hasher.HashParts` | include/blake3/blake3.c:476-646 | for every list of byte strings below 2^64 bytes: initialize, update once per string, finalize gives the tree hash of the concatenation, however it is split |
| `WriteBuffer.AfterWrite` | src/cas/write_buffer.cpp:10-67 | replacing the run of touching segments by the merged one keeps the overlay sorted, disjoint, non-adjacent and equal to the per-byte last writer, with the exact byte sum |
| `WriteBuffer.AfterTruncate` | src/cas/write_buffer.cpp:100-118 | cutting at a size keeps the overlay the last-writer model with that size set |
| `WriteBuffer.WriteBuffer.MergeRange` | src/cas/write_buffer.cpp:15-42 | finds exactly the segments that overlap or touch a write, the range they span and their byte count |
| `WriteBuffer.WriteBuffer.MergedBytes` | src/cas/write_buffer.cpp:44-54 | the merged segment has the new bytes where written and the old ones elsewhere |
| `WriteBuffer.WriteBuffer.Write` | src/cas/write_buffer.cpp:10-67 | after any history of calls one more write keeps the buffer the per-byte last-writer model of the history |
| `WriteBuffer.WriteBuffer.Truncate` | src/cas/write_buffer.cpp:100-118 | so does one more truncation |
| `WriteBuffer.WriteBuffer.Clear` | src/cas/write_buffer.cpp:145-149 | a cleared buffer has no history |
| `WriteBuffer.WriteBuffer.Read` | src/cas/write_buffer.cpp:69-98 | a read is the slice of the per-byte model, short at the end of the file and empty past it |
| `WriteBuffer.WriteBuffer.Materialize` | src/cas/write_buffer.cpp:131-143 | the materialized file is the per-byte last-writer model over the base |
| `FileHandle.FhState.Flush` | src/cas/daemon.cpp:267-290 | materialize, make that the base, clear: a reader sees no difference, a failed write changes nothing |
| `FileHandle.PosixExactly` | src/cas/write_buffer.cpp:100-143 | for all calls the handle shows what a POSIX file would if and only if no nonzero base byte was cut off and came back by growth |
| `FileHandle.PosixIfNeverCut` | src/cas/write_buffer.cpp:10-143 | without a truncation below the base size it always does |
| `FileHandle.TruncateThenGrowShowsBase` | src/cas/write_buffer.cpp:100-143 | a concrete run where base bytes show through again |
| `FileHandle.FlushInvisibleExactly` | src/cas/daemon.cpp:267-290 | later reads are unchanged by a flush in between if and only if nowhere a byte left to the base, past the flushed end or past a later cut, differs between the old and the new base |
| `FileHandle.FlushInvisibleForever` | src/cas/daemon.cpp:267-290 | no later calls whatever can tell that there was a flush if and only if it changed nothing but zeros at the end |
| `FileHandle.FlushInvisible` | src/cas/daemon.cpp:267-290 | as long as nothing is cut off a flush changes no later read |
| `FileHandle.FlushForgetsCutBytes` | src/cas/daemon.cpp:267-290 | a concrete run where it does |
| `FlushTable.LastHandleWins` | src/cas/daemon.cpp:267-290 | of several dirty handles on one path the last one flushed decides the entry, which keeps the path's mode |
| `FlushTable.OtherPathsStay` | src/cas/daemon.cpp:267-290 | paths without a dirty handle keep their entry |
| `FlushTable.FlushFhsForBranch` | src/cas/daemon.cpp:267-290 | for every table: all handles read as before; on success all that were dirty and due are clean with their blob in the tree, on failure exactly those before the failing one |
| `GcGraph.LeastExists` | src/cas/gc.cpp:250-384 | for every store, policy and roots there is a least closed set of marks: every tree, commit, record and leaf reachable from the roots, and no more |
| `GcGraph.LeastUnique` | src/cas/gc.cpp:250-384 | a closed set inside the least one is the least one |
| `GcGraph.WindowWithin` | src/cas/gc.cpp:105-122 | the retention window stays among the reachable commits |
| `GcMark.GcRunner.MarkTreeRecursive` | src/cas/gc.cpp:46-71 | marks a tree's closure with a visited set shared across calls, ends on cyclic graphs too, and fails only when something is unreadable |
| `GcMark.GcRunner.KeepLastSet` | src/cas/gc.cpp:105-122 | the first-parent window of the branch head, at least one commit when a window is set |
| `GcMark.GcRunner.MarkCommitChain` | src/cas/gc.cpp:90-163 | visits every commit through every parent, retains head, window and kept labels |
| `GcMark.GcRunner.MarkStateRecord` | src/cas/gc.cpp:165-205 | marks everything a state record reaches, through union states and back, on cyclic record graphs too |
| `GcMark.GcRunner.MarkUnionState` | src/cas/gc.cpp:207-243 | the same from a union state |
| `GcMark.GcRunner.MarkRetainedData` | src/cas/gc.cpp:369-371 | marks the trees of all retained commits |
| `GcMark.GcRunner.CountCompacted` | src/cas/gc.cpp:373-381 | counts exactly the visited commits that are not retained |
| `GcMark.GcRunner.Mark` | src/cas/gc.cpp:250-384 | on success the marks are closed, hold every root and lie in every closed set; it succeeds whenever all roots and all of that are readable |
| `GcRun.MarkPhase` | src/cas/gc.cpp:386-400 | succeeds if and only if the roots are sound and the least closed set is readable, and then marks exactly that set |
| `GcRun.ObjectStore.RemoveObjectIfOlderThan` | src/cas/object_store.cpp:324-355 | removes exactly an object that is not pending, exists, can be examined, is older than the fence and removable, and tells each other outcome apart |
| `GcRun.ObjectStore.SweepOne` | src/cas/gc.cpp:404-434 | what one enumerated object contributes to the store and to the counters |
| `GcRun.ObjectStore.Sweep` | src/cas/gc.cpp:402-434 | takes exactly the enumerated objects that are unmarked, outside the fence and not pending, and counts them |
| `GcRun.Run` | src/cas/gc.cpp:386-448 | a whole collection: nothing marked is lost; when marking fails nothing is; `compacted_commits` is exact |
| `GcRun.RetainedCommitSurvives` | src/cas/gc.cpp:90-163 | after a collection every retained commit reads and rebuilds as before, with all its previously existing leaves |
| `GcRun.LabelsResolveAlike` | src/cas/checkpoint.cpp:143-153 | a label resolves to the same commit on every branch after a collection |
| `GcRun.TargetsResolveAlike` | src/cas/checkpoint.cpp:131-154 | so does every target, except the full hash of an object that was removed, which then resolves differently |
| `GcHandshake.WriterStep` | src/cas/object_store.cpp:147-254 | publishing and adopting keep every live object stored and shielded from the running collection |
| `GcHandshake.ListingStep` | src/cas/daemon.cpp:701-764 | with every checkpoint lock held no writer stands between publishing and inserting |
| `GcHandshake.RemoveStep` | src/cas/object_store.cpp:324-355 | the removal takes only what no live tree and no writer needs |
| `GcHandshake.StepKeepsInv` | src/cas/gc.cpp:386-438 | every step of writers, clock, branches and collection keeps the invariant |
| `GcHandshake.NoLiveObjectIsSwept` | src/cas/gc.cpp:386-438 | in every interleaving with any number of writers every object a live tree points to still exists |
| `GcHandshake.SafeExactlyWithinTheFence` | src/cas/gc.cpp:386-424 | this holds if and only if the start time is read at most two seconds after the listing |
| `DaemonGc.CollectLiveRoots` | src/cas/daemon.cpp:701-743 | the roots are exactly what trees, open files and pending publications hold, and every runtime's union state |
| `DaemonGc.RunGc` | src/cas/daemon.cpp:746-764 | everything the daemon holds is as before, whether the collection succeeds or fails, and a branch without a ref fails it |
| `Rebuild.RebuildsAlike` | src/cas/tree_serialize.cpp:160-218 | two ways of reading directories that agree on a tree's closure rebuild the same |
| `Rebuild.RebuiltLeaves` | src/cas/tree_serialize.cpp:160-218 | every leaf of a rebuilt tree is in the closure |
| `Rebuild.StepsInside` | src/cas/tree_serialize.cpp:160-218 | every step of the walk stays in the closure |
| `Rebuild.StepCost` | src/cas/tree_serialize.cpp:172-214 | the number of directory visits still to come shrinks with every step on every acyclic store |
| `Rebuild.FailureIsFinal` | src/cas/tree_serialize.cpp:178-203 | a walk that meets an unreadable directory never gives a tree |
| `Rebuild.RebuildIsUnique` | src/cas/tree_serialize.cpp:160-218 | there is at most one tree to rebuild |
| `Rebuild.RebuildWorkingTree` | src/cas/tree_serialize.cpp:160-218 | ends on every acyclic store, gives the tree when there is one and fails exactly when there is none, naming the directory it stopped at |
| `Rollback.ResolveTarget` | src/cas/checkpoint.cpp:131-154 | the cursor loop finds the newest first-parent commit with the label within its limit |
| `Rollback.InvalidateFhsForBranch` | src/cas/daemon.cpp:292-297 | turns exactly the branch's handles stale |
| `Rollback.LoadTarget` | src/cas/checkpoint.cpp:174-193 | finds the tree to go back to exactly when there is one, and tells a swept directory from a broken one |
| `Rollback.RollbackLocked` | src/cas/checkpoint.cpp:168-201 | refused exactly when there is no tree to go back to and then changes nothing; otherwise tree and handles change even when the ref then cannot be written |
| `Rollback.RollbackRestoresCheckpoint` | src/cas/checkpoint.cpp:168-203 | rolling back to a checkpoint's tree shows exactly the paths that a chain of directories led to, as the checkpoint found them, and the whole tree if and only if every path was written in a directory |
| `Rollback.RollbackSurvivesCollection` | src/cas/checkpoint.cpp:168-203 | a collection in between changes nothing for a retained commit |
| `TreeCodec.SerializeTreeEntries` | src/cas/tree_serialize.cpp:11-33 | the byte loop writes the encoding that the exact round trip is about, of the sorted lines |
| `TreeCodec.DeserializeTreeEntries` | src/cas/tree_serialize.cpp:35-63 | the cursor loop decodes and never reads past the body, however short |
| `TreeCodec.SortPermutes` | src/cas/tree_serialize.cpp:13-15 | sorting keeps every line with its multiplicity |
| `TreeCodec.SortOrders` | src/cas/tree_serialize.cpp:13-15 | and orders them by name |
| `TreeCodec.DecodeEncoded` | src/cas/tree_serialize.cpp:11-63 | decoding an encoded directory gives the sorted lines with names cut to sixteen bits of length and the count to thirty-two |
| `TreeCodec.RoundTripExactly` | src/cas/tree_serialize.cpp:11-63 | a directory survives if and only if every name is shorter than 65536 bytes |
| `TreeSerialize.CollectChildren` | src/cas/tree_serialize.cpp:72-111 | the two passes over the tree give every directory its lines, empty directories included |
| `TreeSerialize.ByLength` | src/cas/tree_serialize.cpp:112-113 | orders the directories so that none comes before a longer one |
| `TreeSerialize.DirsAreBounded` | src/cas/tree_serialize.cpp:112-124 | directory paths have a greatest length, so the hashes are well defined bottom-up |
| `TreeSerialize.WriteTree` | src/cas/object_store.cpp:147-254 | writing is by content: the body is stored under its own hash and nothing else changes |
| `TreeSerialize.WriteDir` | src/cas/tree_serialize.cpp:115-141 | when a directory is hashed all its subdirectories have been |
| `TreeSerialize.SerializeWorkingTree` | src/cas/tree_serialize.cpp:65-158 | longest first stores every directory under the hash of its recursive encoding and returns the root's, if and only if none of its writes fails |
| `TreeRoundTrip.WalkEnumerates` | src/cas/tree_serialize.cpp:73-98 | the ordered walk of a working tree lists every known path once |
| `TreeRoundTrip.DirReadsBack` | src/cas/tree_serialize.cpp:35-63 | a stored directory that is reached reads back as exactly its direct children |
| `TreeRoundTrip.StoredTreeRebuilds` | src/cas/tree_serialize.cpp:160-218 | rebuilding from the root gives all reached paths, through every level |
| `TreeRoundTrip.SerializedTreeRebuilds` | src/cas/tree_serialize.cpp:65-218 | rebuilding what was written for any tree gives exactly its reached part: the same paths, kinds, modes and leaf hashes, whiteouts included |
| `TreeRoundTrip.AllReachedExactly` | src/cas/tree_serialize.cpp:73-111 | nothing is lost if and only if no path is skipped and each has the root or a live directory as parent |
| `TreeRoundTrip.ComesBackExactly` | src/cas/tree_serialize.cpp:65-218 | whatever a rebuild gives is the reached part, and it is the whole tree if and only if no leaf is empty and no path lies below a file, a symlink, a whiteout or nothing |
| `Checkpoint.ObjectStore.DrainPending` | src/cas/object_store.cpp:256-261 | hands out everything pending and leaves nothing |
| `Checkpoint.ObjectStore.RestorePending` | src/cas/object_store.cpp:263-266 | puts hashes back |
| `Checkpoint.ObjectStore.FsyncObjects` | src/cas/object_store.cpp:491-515 | succeeds if and only if no file fails, and then exactly these files are synced |
| `Checkpoint.ObjectStore.FsyncShardDirs` | src/cas/object_store.cpp:517-552 | succeeds if and only if there is nothing to do or no shard directory and not the directory above them fails, and then exactly the entries of these shards and all shards are listed for good |
| `Checkpoint.ObjectStore.SyncReferenced` | src/cas/checkpoint.cpp:95-109 | succeeds if and only if no sync of something drained and referenced fails; the disk is then exactly the synced one and nothing is pending, else everything drained is pending again |
| `Checkpoint.WriteGraph` | src/cas/checkpoint.cpp:68-93 | writes trees and commit if and only if no tree write and not the commit fails; exactly what is new becomes pending |
| `Checkpoint.CheckpointLocked` | src/cas/checkpoint.cpp:57-115 | the commit is published if and only if no step fails, the disk is then exactly the synced one, and an object of the commit is durable if and only if it was drained or settled; what was pending stays pending if and only if the ref is not reached or nothing was pending |
| `Checkpoint.DrainedExactly` | src/cas/checkpoint.cpp:95-115 | the commit's graph is durable if and only if each object of it was drained or settled, and what was drained for another branch is durable if and only if it was settled, and no longer pending |
| `CheckpointRuns.FailedRefLosesHashes` | src/cas/checkpoint.cpp:110-115 | a concrete checkpoint whose ref write fails: a blob that was pending for another branch is neither pending nor durable afterwards |
| `CheckpointRuns.TwoBranchRun` | src/cas/checkpoint.cpp:95-115 | a concrete run of two checkpoints, without any hash collision: the first drains a blob that only the second branch holds, and the second publishes a commit of its own whose tree rebuilds to a file with this blob, which is neither durable nor pending |
| `Checkpoint.GraphIsCovered` | src/cas/checkpoint.cpp:25-50 | the leaves and the written trees cover the closure of the root |
| `Checkpoint.RebuildTouchesDurable` | src/cas/checkpoint.cpp:25-115 | a rebuild of the published tree meets only durable objects |
| `CommitCodec.SerializeCommit` | src/cas/commit.cpp:6-25 | the buffer is sized once and filled from the front at a moving position; it then holds the encoding, zeros at its end when the label is cut |
| `CommitCodec.DeserializeCommit` | src/cas/commit.cpp:27-49 | the cursor walk, with its 32-bit length test, refuses, reads past the body or parses exactly as described |
| `CommitCodec.ReadsStayInsideExactly` | src/cas/commit.cpp:27-49 | every read lies inside the body if and only if a length test refuses it, wrapped product included, or the body holds the claimed parents |
| `CommitCodec.SmallCountsStayInside` | src/cas/commit.cpp:33-34 | below 2^27 claimed parents the product does not wrap and every read stays inside |
| `CommitCodec.WrappedCountReadsPast` | src/cas/commit.cpp:33-38 | every body of at least 58 bytes and less than 4 GiB that claims 2^27 parents passes the length test and is read past its end |
| `CommitCodec.DecodeEncoded` | src/cas/commit.cpp:6-49 | decoding an encoded commit gives it back with its label cut to sixteen bits of length |
| `CommitCodec.RoundTripExactly` | src/cas/commit.cpp:6-49 | a commit survives if and only if its label is shorter than 65536 bytes |
| `Supervisor.RuntimeSupervisor.RegisterRuntime` | src/cas/runtime_supervisor.cpp:23-46 | refused on an unsupported platform; a new id, given or generated, gets a fresh record at generation one; a known one is refused |
| `Supervisor.GeneratedIdsDiffer` | src/cas/runtime_supervisor.cpp:933-938 | no two values of the 64-bit counter give the same generated id |
| `Supervisor.RuntimeSupervisor.BeginSnapshot` | src/cas/runtime_supervisor.cpp:117-141 | one pending snapshot per runtime, under a fresh operation |
| `Supervisor.RuntimeSupervisor.CancelSnapshot` | src/cas/runtime_supervisor.cpp:143-178 | clears the snapshot and answers a boundary that still waits |
| `Supervisor.RuntimeSupervisor.ObserveBoundary` | src/cas/runtime_supervisor.cpp:180-221 | only the token's holder, once per pending snapshot |
| `Supervisor.RuntimeSupervisor.ReleaseBoundaryForSnapshot` | src/cas/runtime_supervisor.cpp:223-273 | an unanswered boundary gets a new template; the snapshot stays pending |
| `Supervisor.RuntimeSupervisor.ReleaseBoundaryWithError` | src/cas/runtime_supervisor.cpp:275-308 | an unanswered boundary gets the error and the snapshot ends |
| `Supervisor.RuntimeSupervisor.WaitBoundaryAction` | src/cas/runtime_supervisor.cpp:828-883 | the boundary's record is gone afterwards, answered or not |
| `Supervisor.RuntimeSupervisor.TemplateReady` | src/cas/runtime_supervisor.cpp:310-345 | a known template of the token's runtime becomes ready |
| `Supervisor.RuntimeSupervisor.AttachUnionState` | src/cas/runtime_supervisor.cpp:411-429 | publishing clears an earlier publish error |
| `Supervisor.RuntimeSupervisor.FailTemplatePublish` | src/cas/runtime_supervisor.cpp:431-447 | the error is recorded and the template stays |
| `Supervisor.RuntimeSupervisor.BeginRestore` | src/cas/runtime_supervisor.cpp:449-490 | freezes first, then records the intent without releasing it |
| `Supervisor.RuntimeSupervisor.PublishRestore` | src/cas/runtime_supervisor.cpp:492-519 | releases exactly the pending intent |
| `Supervisor.RuntimeSupervisor.AbortRestore` | src/cas/runtime_supervisor.cpp:521-565 | takes the intent back, has the active group resumed, and reports a failed resumption without failing |
| `Supervisor.RuntimeSupervisor.TemplatePoll` | src/cas/runtime_supervisor.cpp:567-613 | hands a released intent off once; a dropped template is erased |
| `Supervisor.RuntimeSupervisor.GenerationReady` | src/cas/runtime_supervisor.cpp:615-675 | accepts the pending target once and stashes the old group |
| `Supervisor.RuntimeSupervisor.RetirePendingGeneration` | src/cas/runtime_supervisor.cpp:677-715 | hands out the stashed group once, has it terminated, and reports a failed termination without failing |
| `Supervisor.RuntimeSupervisor.DropTemplate` | src/cas/runtime_supervisor.cpp:717-757 | refuses a template with a restore in progress |
| `SnapshotProtocol.StepKeepsInv` | src/cas/runtime_supervisor.cpp:117-308 | every supervisor call, in any order and with any arguments, keeps the snapshot invariant |
| `SnapshotProtocol.EachSnapshotIsAnsweredOnce` | src/cas/runtime_supervisor.cpp:117-308 | in every run each snapshot operation is observed at one boundary at most, answered once at most and given one template at most, in this order |
| `SnapshotProtocol.AnswersAreTheirOwn` | src/cas/runtime_supervisor.cpp:223-308 | in every run an answer names the boundary's own operation and a template of its own runtime |
| `SnapshotProtocol.NoBoundaryIsForgotten` | src/cas/runtime_supervisor.cpp:143-308 | in every run a boundary that waits belongs to its runtime's pending snapshot: cancelling or refusing leaves none waiting |
| `RestoreProtocol.StepKeepsInv` | src/cas/runtime_supervisor.cpp:449-715 | every step of driver, runtimes, templates and other clients keeps the protocol invariant |
| `RestoreProtocol.EachRestoreHandsOffOnce` | src/cas/daemon.cpp:1076-1164 | in every run each successful begin_restore leads to at most one hand-off, only after its rollback, and at most one accepted acknowledgement; one that was accepted from a grandchild came from a hand-off of the same runtime to the same target |
| `LateAcknowledgement.HandOffCarriesTarget` | src/cas/runtime_supervisor.cpp:567-613 | a hand-off gives out the target of the latest restore, never of an earlier one |
| `LateAcknowledgement.AcceptedForPending` | src/cas/runtime_supervisor.cpp:615-675 | an acknowledgement is accepted for a restore if and only if the token holds and that restore is the pending one of its runtime with its target |
| `LateAcknowledgement.TakenForAnotherExactly` | src/cas/runtime_supervisor.cpp:615-675 | in every run the acknowledgement of one restore's grandchild is accepted for another restore if and only if a later one of the same runtime to the same target is pending |
| `LateAcknowledgement.LateGrandchildIsAccepted` | src/cas/daemon.cpp:1027-1146 | a concrete run does this: begin, hand-off, time-out, abort, begin with the same target, late acknowledgement |
| `RestoreProtocol.OnlyTheActiveGroupRuns` | src/cas/runtime_supervisor.cpp:615-715 | in every run every formerly active group other than the present one is frozen or dead |
| `RestoreProtocol.NobodyIsLeftFrozen` | src/cas/daemon.cpp:1082-1164 | with no restore under way no runtime's active group is frozen unless resuming it failed |
| `RestoreProtocol.RetirementSparesTheActive` | src/cas/runtime_supervisor.cpp:677-715 | the group a retirement kills is never the active one |
| `OrderedMap.PutValid` | src/cas/working_tree.cpp:32-35 | insertion keeps the keys sorted and changes one key |
| `OrderedMap.PrefixRangeIsExact` | src/cas/working_tree.cpp:138-167 | the keys that share a prefix form one contiguous range in map order, found by its lower bound |
| `OrderedMap.MergeSorted` | src/cas/working_tree.cpp:123-136 | merging two sorted key lists gives a sorted one without duplicates |
| `OrderedMap.MergeMembers` | src/cas/working_tree.cpp:123-136 | and has exactly the keys of both |
| `WorkingTreeSpec.RemoveHides` | src/cas/working_tree.cpp:47-63 | removal hides one path and changes no other |
| `Bootstrap.WhiteoutsStayNeeded` | src/cas/working_tree.cpp:47-63 | in every run a whiteout that user operations leave in an authoritative tree hides something that base or source could bring back |
| `WorkingTreeSpec.RenameEntryMoves` | src/cas/working_tree.cpp:70-84 | renaming a visible path moves its entry and nothing else |
| `WorkingTreeSpec.FoldKeeps` | src/cas/working_tree.cpp:237-249 | folding changes no lookup |
| `WorkingTreeSpec.RenameDirMovesSubtree` | src/cas/working_tree.cpp:86-121 | between incomparable directories the old subtree is gone, the new one is filled from it, and no other path changes |
| `WorkingTreeSpec.RenameDirOntoNothing` | src/cas/working_tree.cpp:86-121 | onto a target without live descendants exactly the subtree moves |
| `WorkingTree.MergeShadows` | src/cas/working_tree.cpp:123-136 | the merged walk shows delta over base, as lookup does |
| `WorkingTree.WalkLists` | src/cas/working_tree.cpp:123-167 | the filtered walk lists exactly the wanted live entries, sorted |
| `WorkingTree.WorkingTree.LookupRaw` | src/cas/working_tree.cpp:6-18 | delta shadows base |
| `WorkingTree.WorkingTree.Lookup` | src/cas/working_tree.cpp:20-25 | a whiteout is invisible |
| `WorkingTree.WorkingTree.Insert` | src/cas/working_tree.cpp:32-35 | refines the flat map's insertion |
| `WorkingTree.WorkingTree.InsertSource` | src/cas/working_tree.cpp:37-45 | marks the origin while the base is authoritative |
| `WorkingTree.WorkingTree.Remove` | src/cas/working_tree.cpp:47-63 | refines removal with its whiteout rule |
| `WorkingTree.WorkingTree.RenameEntry` | src/cas/working_tree.cpp:70-84 | refines the move of one entry |
| `WorkingTree.WorkingTree.RenameDir` | src/cas/working_tree.cpp:86-121 | collects exactly the subtree of both layers, in order and once, and moves it entry by entry |
| `WorkingTree.WorkingTree.MergedForEach` | src/cas/working_tree.cpp:123-136 | visits every known path once in order, whiteouts included |
| `WorkingTree.WorkingTree.ForEach` | src/cas/working_tree.cpp:177-182 | visits exactly the visible paths |
| `WorkingTree.WorkingTree.Size` | src/cas/working_tree.cpp:190-197 | counts exactly the visible paths |
| `WorkingTree.WorkingTree.ListDir` | src/cas/working_tree.cpp:138-167 | lists exactly the live direct children, sorted, no duplicates |
| `WorkingTree.WorkingTree.Clone` | src/cas/working_tree.cpp:219-227 | a copy with the same view that shares only the immutable base |
| `WorkingTree.WorkingTree.SetBase` | src/cas/working_tree.cpp:229-235 | replaces everything by an authoritative base |
| `WorkingTree.WorkingTree.FoldIntoBase` | src/cas/working_tree.cpp:237-249 | the new base is a new object, so clones keep theirs |
| `WorkingTree.WorkingTree.BeginSourceWalk` | src/cas/working_tree.cpp:251-254 | drops authority and nothing else |
| `WorkingTree.WorkingTree.Clear` | src/cas/working_tree.cpp:169-175 | an empty tree without authority |
| `Bootstrap.EnsureOnlyAdds` | src/cas/bootstrap.cpp:159-196 | ensuring a path changes nothing known and adds only ancestors that the source has |
| `Bootstrap.EnsureAnswers` | src/cas/bootstrap.cpp:159-196 | it succeeds exactly when the path is visible afterwards |
| `Bootstrap.Bootstrap.FindMissing` | src/cas/bootstrap.cpp:168-177 | the upward loop finds the chain of unknown ancestors, or a whiteout that hides them |
| `Bootstrap.Bootstrap.EnsurePath` | src/cas/bootstrap.cpp:159-196 | the two loops ingest top-down exactly what the recursive description says |
| `Bootstrap.UserStepKeepsInv` | src/cas/working_tree.cpp:32-121 | user operations keep "known source paths stay known or anchored" |
| `Bootstrap.OtherStepKeepsInv` | src/cas/bootstrap.cpp:159-308 | so do ingestion, walk, publication and rollback |
| `Bootstrap.NothingComesBack` | src/cas/bootstrap.cpp:159-308 | in every run whose directory renames land on no unprobed source path, across changes of authority, a path removed or renamed away stays invisible to ingestion until a user puts something there |
| `Bootstrap.SafeExactlyWhenAnchored` | src/cas/bootstrap.cpp:159-308 | for every tree and any source map, with walk steps at any time: all careful runs from it keep what is removed gone if and only if each known source path is in the base or marked |
| `ComingBack.OrdinarilySafeExactlyWhenAnchored` | src/cas/bootstrap.cpp:159-196 | for every real source directory the same holds of creations, removals and lookups alone: they bring something back if and only if some known source path is neither in the base nor marked |
| `Bootstrap.RenameSafeExactlyWhenCareful` | src/cas/working_tree.cpp:86-121 | after a directory rename this holds if and only if each moved live entry lands on a path that the source does not have, or that is known to base or marks |
| `ComingBack.RenameOrdinarilySafeExactlyWhenCareful` | src/cas/working_tree.cpp:86-121 | after a directory rename creations, removals and lookups keep what is removed gone if and only if each moved live entry lands where the source has nothing or base or marks know it |
| `ComingBack.RenamedChildComesBack` | src/cas/platform/linux/fuse_adapter.cpp:476-494 | for any names: from an empty tree on, a rename of one directory onto another that the adapter has looked up in a real source; the file moved onto the source's own comes back when it is removed and looked up |
| `Bootstrap.ComesBackExactly` | src/cas/bootstrap.cpp:159-196 | for one removal the source brings a path back if and only if the tree was authoritative and the path neither in the base nor marked as from the source |
| `BranchRouter.NearestWins` | src/cas/branch_router.cpp:113-137 | the uncached lookup answers with the nearest registered ancestor |
| `BranchRouter.UnregisteredIsMain` | src/cas/branch_router.cpp:131-137 | without a registered ancestor it answers the main branch |
| `BranchRouter.BranchRouter.CgroupPathIds` | src/cas/branch_router.cpp:113-129 | the upward loop collects the existing ancestors' ids, nearest first |
| `BranchRouter.BranchRouter.BranchForCgroupIds` | src/cas/branch_router.cpp:131-137 | the first registered id decides |
| `BranchRouter.BranchRouter.RegisterCgroup` | src/cas/branch_router.cpp:84-100 | registers, bumps the generation and empties both caches |
| `BranchRouter.BranchRouter.UnregisterCgroup` | src/cas/branch_router.cpp:102-111 | bumps the generation only when something was erased, but always empties the caches |
| `BranchRouter.BranchRouter.EvictCgroupId` | src/cas/branch_router.cpp:139-145 | forgets one id, generation and caches with it |
| `BranchRouter.BranchRouter.InvalidateBranch` | src/cas/branch_router.cpp:151-160 | forgets every registration of a branch |
| `BranchRouter.BranchRouter.FenceCacheStore` | src/cas/branch_router.cpp:23-28 | stores one process entry, emptying a full cache first |
| `BranchRouter.BranchRouter.FastLookup` | src/cas/branch_router.cpp:163-170 | answers from the process cache only under an unchanged fence generation |
| `BranchRouter.BranchRouter.PathLookup` | src/cas/branch_router.cpp:196-207 | the locked path-cache section: a hit also caches the process under the sampled generation |
| `BranchRouter.BranchRouter.FinishMiss` | src/cas/branch_router.cpp:215-227 | the locked end of a miss: caches only when no registration changed during the walk |
| `BranchRouter.BranchRouter.Resolve` | src/cas/branch_router.cpp:162-228 | one call by itself: a fast hit changes nothing, everything else answers the uncached route of the process's cgroup, and both caches stay in agreement |
| `RoutingProtocol.StepKeepsInv` | src/cas/branch_router.cpp:84-228 | every step of any number of concurrent resolves, registrations and migrations keeps the cache invariant |
| `RoutingProtocol.PathCacheAgrees` | src/cas/branch_router.cpp:162-228 | in every run each path entry agrees with the present registrations |
| `RoutingProtocol.PidCacheAgrees` | src/cas/branch_router.cpp:162-228 | in every run a process entry the fence would let through is the uncached answer for where the process is |
| `RoutingProtocol.EveryAnswerIsJustified` | src/cas/branch_router.cpp:162-228 | every resolve answers with the uncached route, under the registrations of that moment, of a cgroup the process was in during the call |
| `CommitGraph.CollectAncestors` | src/cas/branch_merge.cpp:85-104 | succeeds if and only if everything reachable is readable, and then gives exactly the ancestors |
| `CommitGraph.IsAncestorOf` | src/cas/branch_merge.cpp:106-128 | on readable history answers exactly whether one commit is an ancestor of the other, and never wrongly yes |
| `CommitGraph.Superseded` | src/cas/branch_merge.cpp:273-282 | a candidate is kept if and only if no other common ancestor descends from it |
| `CommitGraph.PickLowest` | src/cas/branch_merge.cpp:272-289 | of the best common ancestors the one with the lowest hash |
| `CommitGraph.FindCommonAncestor` | src/cas/branch_merge.cpp:241-292 | on every acyclic graph succeeds exactly when both histories are readable and have a common ancestor, and returns a best one |
| `CommitGraph.LatestIsMergeBase` | src/cas/branch_merge.cpp:260-289 | the candidates never run out: the latest common ancestor is always a best one |
| `CommitGraph.ChosenIsUnique` | src/cas/branch_merge.cpp:285-289 | the choice is unique |
| `CommitGraph.ChosenIsSymmetric` | src/cas/branch_merge.cpp:241-292 | and the same with the arguments swapped |
| `CommitGraph.ChosenOfAncestor` | src/cas/branch_merge.cpp:241-292 | an ancestor of the other commit is the choice itself |
| `BranchMerge.MergeOneMeaning` | src/cas/branch_merge.cpp:180-199 | per path: an unchanged side yields to the other, equal changes merge, and everything else conflicts |
| `BranchMerge.MergeOneSymmetric` | src/cas/branch_merge.cpp:180-199 | per path the sides can be swapped, up to the hashes of directories |
| `BranchMerge.StructureExactly` | src/cas/branch_merge.cpp:140-157 | no structural conflict is reported if and only if every recorded path above a live one is a directory |
| `BranchMerge.MergeIsSymmetric` | src/cas/branch_merge.cpp:161-218 | the same conflicts and, up to directory hashes, the same result with source and target swapped |
| `BranchMerge.SourceEqualsBase` | src/cas/branch_merge.cpp:161-218 | with an unchanged source the merge is the target, and it is free of conflicts if and only if the target is structurally sound, over what base records too |
| `BranchMerge.ToPathMap` | src/cas/branch_merge.cpp:18-24 | the map of a tree is its raw lookup, whiteouts included |
| `BranchMerge.Climb` | src/cas/branch_merge.cpp:147-155 | the upward loop stops at the nearest recorded ancestor that is no directory |
| `BranchMerge.DetectStructuralConflicts` | src/cas/branch_merge.cpp:140-157 | adds exactly the structural conflict paths |
| `BranchMerge.MergeTrees` | src/cas/branch_merge.cpp:161-218 | reports exactly the content and structural conflict paths, sorted; on success holds exactly the per-path merge, else nothing |
| `LineCodec.EncodeLoop` | src/cas/agent_state.cpp:17-32 | the character loop computes the percent encoding that the round trip is about |
| `LineCodec.DecodeLoop` | src/cas/agent_state.cpp:37-66 | the index loop computes its decoding, and fails exactly where an escape is cut short or no two hexadecimal digits |
| `LineCodec.PercentRoundTrip` | src/cas/agent_state.cpp:17-66 | decoding undoes encoding for every string |
| `LineCodec.EncodedIsClean` | src/cas/agent_state.cpp:17-32 | an encoded string never holds a line break, an equals sign or a bar |
| `LineCodec.DecRoundTrip` | src/cas/agent_state.cpp:68-98 | decimal digits give every number back |
| `LineCodec.HashRoundTrip` | src/cas/hash.h:14-47 | 64 hexadecimal digits give every hash back |
| `LineCodec.FieldsRoundTrip` | src/cas/agent_state.cpp:297-340 | lines split at the first equals sign give every well-framed field list back, in order |
| `LineCodec.NextLine` | src/cas/agent_state.cpp:321-337 | the line cursor advances past exactly one line |
| `RecordCodec.FinishStep` | src/cas/agent_state.cpp:321-337 | one turn of the reading loop: an empty line is skipped, a line without separator or with a bad value ends it, any other field is taken over |
| `RecordCodec.ParsePrinted` | src/cas/agent_state.cpp:241-340 | for every format: parsing printed fields takes over exactly these fields, in order |
| `RecordCodec.OwnValuesRead` | src/cas/agent_state.cpp:139-295 | for every format whose fields each read back their own value: reading the printed fields of some keys takes exactly these fields over and leaves the others and the id |
| `AgentState.SerializeAgentStateRecord` | src/cas/agent_state.cpp:241-295 | the encoding and writing loops give the text that the exact round trip is about: header, fields, dependencies, tail |
| `AgentState.DeserializeAgentStateRecord` | src/cas/agent_state.cpp:297-340 | the reading and decoding loops accept and reject as the parser does, unknown keys ignored |
| `AgentState.AcceptedExactly` | src/cas/agent_state.cpp:139-213 | a list of fields is accepted if and only if each value is well formed for its key |
| `AgentState.RoundTripExactly` | src/cas/agent_state.cpp:241-340 | parsing undoes printing, but for the derived id, if and only if the ids are empty or full hashes and no dependency is zero; otherwise it fails |
| `RuntimeState.WarningRoundTrip` | src/cas/runtime_state.cpp:101-129 | a warning with any kind and text survives the bars |
| `RuntimeState.SerializeUnionRuntimeState` | src/cas/runtime_state.cpp:222-274 | the encoding and writing loops give the text that the round trip is about: header, fields, warnings |
| `RuntimeState.DeserializeUnionRuntimeState` | src/cas/runtime_state.cpp:276-319 | for every library scanner the reading and decoding loops accept and reject as the parser does, unknown keys ignored |
| `RuntimeState.ReadCommit` | src/cas/hash.h:22-30 | the scanning loop takes the first 64 characters two at a time with the library scanner, whatever that makes of them, and fails at the first pair it refuses |
| `RuntimeState.CommitRoundTrip` | src/cas/hash.h:14-30 | a printed hash is read back by every scanner that knows two hexadecimal digits |
| `RuntimeState.RoundTrip` | src/cas/runtime_state.cpp:222-319 | parsing undoes printing for every union state and every scanner that knows two hexadecimal digits, list order kept, only the derived id reset |

## Left out

- FileHandle.FlushInvisible: covers calls without truncation below the base; `FlushInvisibleExactly` beside it has the exact condition.
- TreeRoundTrip.SerializedTreeRebuilds: written paths are absolute and without double slashes, as all callers make them, their names and modes fit their fields, and the hashes of the bodies involved do not collide.
- TreeSerialize.WriteTree: the touch of an adopted object and the pending entry of a new one are in `GcHandshake.WriterStep` and `Checkpoint.ObjectStore.WriteTrees`.
- TreeCodec.DeserializeTreeEntries: memory is not modelled; the source reserves room for the claimed count before it reads an entry, which can throw on a short body with a large count.
- CommitCodec.DeserializeCommit: memory is not modelled; the source sizes the list of parents by the claimed count, which can throw, and what a read past the body yields is not described.
- CommitGraph.FindCommonAncestor: assumes an acyclic history, as content hashes give; on a cycle the candidates can run out.
- Rebuild.RebuildWorkingTree: assumes an acyclic directory graph, as content hashes give; on a cycle the source's loop does not end.
- RuntimeState.DeserializeUnionRuntimeState: what the library's `sscanf` makes of other text than two hexadecimal digits is a parameter.
- RoutingProtocol.EveryAnswerIsJustified: a cgroup path keeps its inode, and a migration and the fence's bump are one step.
- Bootstrap.Bootstrap.EnsurePath: the second look at a path inside the same lock is folded into the first.
- Bootstrap.NothingComesBack: the background walk's queue is not modelled; each of its entries is a step at any time.  Runs whose directory renames land on unprobed source paths are left to `ComingBack.RenameOrdinarilySafeExactlyWhenCareful`, which has the exact condition.
- ComingBack.OrdinarilySafeExactlyWhenAnchored: a real source holds no path with a reserved name, which a lookup refuses at every level.
- BranchMerge.MergeTrees: `std::sort` and `std::unique` are ordered insertion.
- Blake3Hasher.HashParts: byte counts are unbounded below 2^64; the output seek position does not wrap.
- TreeCodec.SerializeTreeEntries: names hold characters below 256, one per byte.
- SIMD kernels, CPU dispatch and the compression rounds of BLAKE3 (compression is any function); key derivation.
- The list of missing objects that `verify` reports.
- Kinds above three in a directory object, which read as whiteouts.
- Waiting with timeouts, status, listing and eligibility of runtimes; ids of templates, boundaries and operations are counters; the answers of the process controller are inputs.
- Error texts, except where they decide a branch.
- Iteration order of unordered containers; it is an input or any order.
- Guarantees for commits outside retention: a collection may keep their tree and sweep a leaf.
- FUSE and WinFsp adapters, sockets, command line, eBPF, inotify, telemetry, real files and processes.
