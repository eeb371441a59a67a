# pulpfs: a verified model of the metadata machine, the client file path and garbage collection

pulpfs keeps file metadata in a replicated state machine (`src/meta_state.cc`) and file bytes in
immutable objects of an S3 bucket. A client buffers writes as extents that point at objects it has
already stored, and a flush commits them to the metadata (`src/fuse/file_io.cc`,
`src/fuse/fuse_server.cc`). A collector deletes objects no layout refers to (`src/gc_service.cc`).

The project models these three parts and proves, for all inputs, runs and interleavings:

* **Commands.** For every command: when it succeeds, what it answers when it does not, that it answers
  what it leaves stored, and which entries, inodes, attributes and times it changes. These laws leave
  one possible state (`Effects.LawsDetermine`).
* **Namespace.** On every run the directory entries form a tree with exactly one path to each inode;
  the guard of `Rename` is exactly what keeps it one; a rename moves one subtree and changes no other
  path; link counts are right; exactly the files have layouts. The ancestor walk of `Rename` ends on
  any tables if and only if no inode lies on a loop of parents.
* **Extents.** `MergeExtent`, batches, appends and `Truncate` refine a plain sparse file, keep layouts
  sorted and disjoint, and fragment them into at most 2n - 1 pieces. When a rejected batch breaks the
  size bound, and when an error answer comes with a changed state, is stated exactly.
* **Replicas.** Equal logs give equal states and answers up to times, also after a snapshot restore.
  A snapshot message leaves a valid server if and only if it passes the checks, its entries are
  tree-shaped, and its counters, link counts and layouts fit.
* **Client.** Buffered writes are visible at once, and a flush changes nothing a reader sees. When the
  layout fetch after the commit fails, reads still agree if and only if the buffered writes neither grow
  the file nor change a byte. A retry after a lost answer is harmless for positioned writes and stores
  appended bytes twice. Extents record their objects' sizes and tags from the write to the layout, and
  reads are described for missing and short objects too.
* **Collector.** Over every interleaving, no live object is ever deleted if and only if the
  put-to-commit delay plus the live-list-to-cutoff gap is strictly below the grace period. The loop of
  the collector does nothing but enabled steps of that protocol.

## How it is built

| file | content |
|---|---|
| `Types.dfy`, `Text.dfy`, `KeyLists.dfy` | messages and tables, 64-bit arithmetic with wrap-around, decimal numbers, string order, key sorting |
| `Extents.dfy` | extent lists: merging, batches, truncation, appends |
| `Namespace.dfy` | directory entries as a tree of paths |
| `MapOrder.dfy`, `Ancestry.dfy` | the order of the program's maps; walking up on any tables, and which tables are trees |
| `MetaSpec.dfy` | every command as a function of the whole state |
| `MetaInvariant.dfy`, `MetaPaths.dfy`, `MetaFiles.dfy` | what one command keeps and changes |
| `Answers.dfy`, `Effects.dfy` | when a command succeeds and what it answers; everything it changes |
| `Runs.dfy`, `RunFiles.dfy`, `Replicas.dfy`, `Snapshots.dfy` | whole logs, two replicas, snapshots |
| `MetaState.dfy` | the class with its tables updated in place, proved to compute `MetaSpec` |
| `Objects.dfy`, `ObjectKeys.dfy`, `FileIo.dfy`, `Handles.dfy`, `Faults.dfy`, `PartialReads.dfy`, `Provenance.dfy`, `FuseServer.dfy` | the store, object names, reads into a buffer, handles, flushes over a failing network, reads of missing and short objects, what extents record, the client class |
| `GcProtocol.dfy`, `GcService.dfy` | the interleavings, and one run of the collector as a loop |

Each class method is proved equal to a function on values; the theorems are about those functions.
The integers have the program's widths: `u64` additions wrap (`Types.Add64`), and theorems that need
an end not to wrap say so (`Extents.Fits`, `MetaFiles.Fitting`). Clock readings are inputs. Parents
are looked up and snapshots listed in the key order of the maps; where the order of a `std::map` cannot
matter, iteration picks keys in any order.

`Valid` (in `MetaInvariant`) is the invariant of the tables; `NoDangling` says that every entry joins
existing inodes, so that no `inodes_.at` throws. The commands are modelled on any state with
`NoDangling`, valid or not; only a rename whose ancestor walk would never end is excluded
(`MetaSpec.CommandWalkEnds`), since it has no outcome. Runs are bounded only by the inode counter: each
command uses at most one number, so logs of up to about 2^64 commands are covered.

Where the code surprises, the model follows the code:

* `CommitWrite` and `AppendWrite` merge extents one by one and stop at an unacceptable one, so an error
  can leave a merged prefix behind (`MetaFiles.RejectedBatchBreaksSizes`, `MetaFiles.ApplyKeepsSizesIff`,
  `MetaFiles.ErrorsChangeIff`, `MetaFiles.ErrorsKeepReadsIff`).
* `base_version` is ignored; nothing is claimed about concurrent writers of one file, and an append
  whose answer was lost is applied twice by a retry (`Faults.RetryAppended`).
* `RestoreSnapshot` accepts tables with cycles, on which a rename may never return
  (`Snapshots.AcceptedSnapshotMayHoldACycle`). Which accepted messages are trees, and which valid
  servers, is stated exactly (`Snapshots.AcceptedIsTreeIff`, `Snapshots.RestoredIsValidIff`).
* The cutoff of a collector is computed after the live list was fetched, which is why the gap counts
  against the grace period (`GcProtocol.GcSafeIff`).

## Model

| member | source | states |
|---|---|---|
| MetaServer.MetaState.constructor | src/meta_state.cc:61-79 | a new server holds only the root directory, and its tables are valid |
| MetaServer.MetaState.CreateNode | src/meta_state.cc:580-629 | creation by table updates leaves exactly the specified tables, answer and error cases |
| MetaServer.MetaState.SetAttr | src/meta_state.cc:118-148 | only the requested attributes change, in the inode and in its layout copy |
| MetaServer.MetaState.Unlink | src/meta_state.cc:177-200 | unlink leaves exactly the specified tables, answer and error cases, on any tables without dangling entries |
| MetaServer.MetaState.Rmdir | src/meta_state.cc:202-230 | the same for rmdir, with emptiness decided by scanning the entries |
| MetaServer.MetaState.Rename | src/meta_state.cc:232-315 | the same for rename, with the ancestor walk, the replace checks and the removal of a replaced target, whenever that walk ends |
| MetaServer.MetaState.CommitWrite | src/meta_state.cc:348-385 | the merge loop with its early return computes the specified prefix merge, size and version |
| MetaServer.MetaState.AppendWrite | src/meta_state.cc:387-435 | the same for appends placed behind the old size |
| MetaServer.MetaState.Truncate | src/meta_state.cc:437-475 | the loop that drops and slices extents computes the specified cut, size and version |
| MetaServer.MetaState.GetLayout | src/meta_state.cc:317-332 | the stored layout with the inode's attributes, or the error |
| MetaServer.MetaState.ListLiveObjects | src/meta_state.cc:334-346 | the strictly sorted list of exactly the non-empty keys of stored extents |
| MetaServer.MetaState.IsDirectoryEmpty | src/meta_state.cc:644-651 | true exactly when no entry lies in the directory |
| MetaServer.MetaState.ParentOf | src/meta_state.cc:668-678 | on any tables: the parent in the first entry that leads to the inode, else the inode itself |
| MetaServer.MetaState.IsAncestor | src/meta_state.cc:653-666 | whenever the walk ends, it answers whether it met the first inode |
| MetaServer.MetaState.RemoveNode | src/meta_state.cc:690-702 | removal from the three tables with the parent's times, version and links |
| MetaServer.MetaState.TouchInode | src/meta_state.cc:680-688 | times and version of an inode and of its layout copy |
| MetaServer.MetaState.Apply | src/meta_service.cc:435-524 | each command is dispatched to its operation and answered by it, and a valid server stays valid |
| MetaServer.MetaState.SerializeSnapshot | src/meta_state.cc:477-498 | the message lists exactly the three tables, each entry once and in key order, and the two counters |
| MetaServer.MetaState.RestoreSnapshot | src/meta_state.cc:500-544 | the loops with their checks compute the specified restore, first entry of a key first |
| Answers.CreateIff | src/meta_service.cc:456-468 | mkdir and create succeed if and only if the name is a valid, free one in an existing directory; else the answer names the first fault |
| Answers.CreationMakes | src/meta_state.cc:595-628 | a creation stores, under the old counter and behind the new entry, the node it answers: a directory for mkdir and a file for create, with the command's mode and owners, no bytes, version 1, one time, and for a file an empty layout |
| Answers.RemovalIff | src/meta_state.cc:177-230 | unlink succeeds if and only if the entry leads to a non-directory, rmdir if and only if it leads to an empty directory; every refusal with its error |
| Answers.RemovalRemoves | src/meta_state.cc:690-702 | what is removed is in no table afterwards, and nothing else is gone |
| Answers.RenameIff | src/meta_state.cc:232-291 | a rename succeeds if and only if both places exist, the source exists, a moved directory does not hold the new parent, and the target is free, the moved inode, or of the same kind and, if a directory, empty |
| Answers.RenameIffOnTables | src/meta_state.cc:253-264 | the same on any tables, with the ancestor walk in place of paths; a rename onto another entry of the moved inode changes nothing |
| Answers.RenameRefusals | src/meta_state.cc:236-288 | which error each refused rename answers, in the order of the checks |
| Answers.CommitIff | src/meta_state.cc:348-371 | a commit succeeds if and only if it addresses a file and every extent has bytes and a key |
| Answers.AppendIff | src/meta_state.cc:387-435 | the same for an append, which answers the old end and its extents moved there |
| Answers.TruncateIff | src/meta_state.cc:437-447 | a truncation succeeds if and only if it addresses a file |
| Answers.SetAttrIff | src/meta_state.cc:118-124 | setattr succeeds if and only if the inode exists |
| Answers.GetLayoutIff | src/meta_state.cc:317-332 | exactly the files' layouts are handed out, with the inodes' attributes; on a valid server as they are stored |
| Answers.NoCommand | src/meta_service.cc:500-517 | an entry without a command is refused and changes nothing |
| Answers.AnswerIsStored | src/meta_service.cc:505-519 | the attributes in every answer are those stored afterwards for the inode the command is about |
| Effects.ApplyTables | src/meta_service.cc:454-503 | the entries, inodes and counters after every command; none change when it is refused |
| Effects.ApplyAttrs | src/meta_state.cc:118-148 | for every inode a command leaves: mode, owners, version and each of its three times |
| Effects.ApplyChunkSizes | src/meta_state.cc:622-627 | a layout keeps its chunk size, a new one has the default |
| Effects.ApplyObeys | src/meta_service.cc:454-503 | every successful command obeys all these laws |
| Effects.LawsDetermine | src/meta_service.cc:454-503 | two states that obey the laws of one command are the same state |
| Effects.FreshServer | src/meta_state.cc:61-79 | the attributes of the root directory and the empty tables of a new server |
| Extents.MergeExtent | src/meta_state.cc:26-57 | the new extent hides what it covers, every other byte is kept, the list stays sorted and disjoint and grows by at most 2 |
| Extents.MergeOverlays | src/meta_state.cc:26-57 | the same as a law of extent lists |
| Extents.MergeWellFormedIff | src/meta_state.cc:9-57 | a merge keeps a list well-formed if and only if the extent is not empty and its end does not wrap |
| Extents.RemaindersShape | src/meta_state.cc:13-47 | the pieces kept of an overwritten extent lie inside it, beside the new one, and are two only if it sticks out on both sides |
| Extents.SortSorts | src/meta_state.cc:49-51 | the sort orders by offset and permutes |
| Extents.MergeInsideObjects | src/meta_state.cc:17-57 | slices never leave their object |
| Extents.BatchOverlays | src/meta_state.cc:366-371 | a batch reads as laid over the old extents in order, last writer wins |
| Extents.BatchReplay | src/meta_state.cc:366-371 | merging a batch twice reads like merging it once |
| Extents.BatchBounded | src/meta_state.cc:366-379 | a merged batch stays below a size if and only if every extent of it does |
| Extents.FragmentationBound | src/meta_state.cc:26-57 | n extents merged into an empty layout leave at most 2n - 1 entries |
| Extents.CutReads | src/meta_state.cc:449-465 | truncation keeps every byte below the new size and leaves holes from there on |
| Extents.CutWellFormed | src/meta_state.cc:449-465 | truncation keeps layouts sorted, disjoint and inside the new size |
| Extents.ShiftedMaxEnd | src/meta_state.cc:404-424 | an append that fits ends exactly at the new size |
| Extents.BatchKeys | src/meta_state.cc:26-57 | merging brings in no key but those of the batch |
| Namespace.PathsUnique | src/meta_state.cc:580-629 | an inode is reached by one path only |
| Namespace.MoveKeepsTreeIff | src/meta_state.cc:253-258 | moving an entry keeps the namespace a tree if and only if the target directory is not inside the moved subtree |
| Namespace.MovedPath | src/meta_state.cc:293-294 | the effect of a move on every path |
| Namespace.AncestorStep | src/meta_state.cc:653-666 | an inode lies above x if and only if it lies above the parent of x |
| Ancestry.AboveIsReaches | src/meta_state.cc:653-678 | where no inode has two entries, the walk meets exactly the inodes from which a path leads down |
| Ancestry.TreeWalksEnd | src/meta_state.cc:653-666 | on a tree every ancestor walk ends |
| Ancestry.LoopTrapsWalk | src/meta_state.cc:653-666 | from a loop of parents the walk ends if and only if what it looks for lies on the loop |
| Ancestry.WalksEndIffNoLoops | src/meta_state.cc:653-678 | on any tables: every walk ends if and only if no inode lies on a loop of parents |
| Ancestry.WalksEndIffNothingBelowItself | src/meta_state.cc:653-678 | where no inode has two entries: if and only if no inode lies below itself, except as its own entry |
| Ancestry.TreeIffClimbable | src/meta_state.cc:510-536 | tables are a tree if and only if every entry is well placed, every inode but the root has exactly one entry, and none lies below itself |
| MetaPaths.CreateAddsOnePath | src/meta_state.cc:580-629 | a creation adds exactly one path |
| MetaPaths.RemovalRemovesOnePath | src/meta_state.cc:177-230 | unlink and rmdir remove exactly the path they name |
| MetaPaths.RenameMovesSubtree | src/meta_state.cc:232-315 | for every path: below the new path lies what lay below the old one, nothing lies below the old one, all else is as before, replaced targets included |
| MetaPaths.RenameKeepsInodes | src/meta_state.cc:266-294 | only a replaced target leaves the inode table, and the moved inode keeps its number |
| MetaInvariant.InitialIsValid | src/meta_state.cc:61-79 | the fresh tables satisfy the invariant |
| MetaInvariant.WithNodeKeeps | src/meta_state.cc:595-628 | creation keeps tree, numbering, link counts and layout cache |
| MetaInvariant.WithoutNodeKeeps | src/meta_state.cc:690-702 | removing a leaf keeps them |
| MetaInvariant.RelinkedKeeps | src/meta_state.cc:293-314 | the bookkeeping of a rename within or across directories keeps them |
| MetaInvariant.RenameKeepsValid | src/meta_state.cc:232-315 | every rename, replacing or not, keeps them |
| MetaInvariant.ApplyKeepsValid | src/meta_service.cc:454-503 | every command keeps them while an inode number is left |
| MetaInvariant.LinkCountBound | src/meta_state.cc:616-618 | link counts stay below the inode counter, so they never wrap |
| Runs.EveryRunKeepsTheNamespace | src/meta_service.cc:435-524 | on every run from a fresh server: one path to each inode, right link counts, layouts exactly for files with the files' attributes |
| Runs.RunConcat | src/meta_service.cc:435-524 | applying a log in two parts is applying it whole |
| MetaFiles.ApplyContents | src/meta_state.cc:348-475 | extents and size of every file after any command |
| MetaFiles.ApplyReads | src/meta_state.cc:348-475 | a layout refines a sparse file: writes overlay, appends at the old end, truncation cuts to holes, other commands leave it alone |
| MetaFiles.CommitReplay | src/meta_state.cc:348-385 | replaying a commit changes no byte and no size |
| MetaFiles.ShrinkThenGrow | src/meta_state.cc:437-475 | shrinking and growing again leaves a hole |
| MetaFiles.AppendIsolation | src/meta_state.cc:387-435 | an append changes no byte below the old size and overlaps no stored extent |
| MetaFiles.ApplyKeepsExtents | src/meta_state.cc:366-371 | every command, failed or not, keeps every layout sorted, disjoint and free of empty extents |
| MetaFiles.ApplyKeepsRanges | src/meta_state.cc:17-24 | object ranges stay inside their objects |
| MetaFiles.ApplyKeepsSizesIff | src/meta_state.cc:366-383 | every extent ends within its file after a command if and only if the command is not a rejected batch whose accepted prefix reaches past the size |
| MetaFiles.AppendOverreachesIff | src/meta_state.cc:411-424 | for appends: if and only if the batch is rejected after its first extent |
| MetaFiles.RejectedBatchBreaksSizes | src/meta_state.cc:366-371 | a concrete batch that is answered with an error and leaves an extent past the size |
| MetaFiles.ErrorsChangeOnlyRejectedLayouts | src/meta_state.cc:366-371 | the exact state after an error answer: the old one, or the old one with a rejected batch's accepted prefix merged |
| MetaFiles.ErrorsChangeIff | src/meta_state.cc:348-435 | an error answer comes with a changed state if and only if an existing file's batch was rejected after its first extent |
| MetaFiles.ErrorsKeepReadsIff | src/meta_state.cc:348-435 | for any batch: every file reads as before an error answer if and only if the merged prefix reads as what it covers |
| MetaFiles.LiveOnlyGainsCommitted | src/meta_state.cc:334-346 | the live objects gain only keys the command carries |
| RunFiles.RunKeepsLayouts | src/meta_state.cc:348-475 | layout form, object ranges and size bound over whole runs |
| RunFiles.EveryRunKeepsLayouts | src/meta_state.cc:348-475 | the same from a fresh server |
| RunFiles.RunFragmentation | src/meta_state.cc:26-57 | over a run a file with n merged extents has at most 2n - 1 entries |
| RunFiles.ApplyProgress | src/meta_state.cc:595-702 | a changed inode gets a larger version and only new inodes get new numbers |
| RunFiles.RunMonotone | src/meta_state.cc:595-702 | inode numbers are never reused and versions never go back, over a run |
| Replicas.EraseApply | src/meta_service.cc:435-524 | up to times, effect and answer of a command do not depend on the clock |
| Replicas.ReplicasAgree | src/meta_service.cc:435-524 | two replicas with different clocks agree up to times on state and answers |
| Replicas.RestoredReplicaAgrees | src/meta_service.cc:526-577 | a replica restored at any index and fed the rest agrees with one that applied everything, in state and in every answer |
| Snapshots.SnapshotRoundTrip | src/meta_state.cc:477-544 | restoring the snapshot of a valid state gives exactly that state |
| Snapshots.RestoreIsAllOrNothing | src/meta_state.cc:510-543 | a rejected snapshot changes nothing, an accepted one has no dangling entry |
| Snapshots.AcceptedIff | src/meta_state.cc:510-536 | a message is accepted if and only if it lists an inode 1 and only entries and layouts of listed inodes |
| Snapshots.RestoresFirsts | src/meta_state.cc:510-542 | an accepted message restores its counters and, of several items with one key, the first |
| Snapshots.AcceptedIsTreeIff | src/meta_state.cc:510-536 | an accepted snapshot is a tree if and only if its entries are tree-shaped |
| Snapshots.RestoredIsValidIff | src/meta_state.cc:500-544 | restoring leaves a valid server if and only if the message passes the checks and is tree-shaped and consistent |
| Snapshots.AcceptedSnapshotMayHoldACycle | src/meta_state.cc:510-536 | a concrete accepted snapshot that is not a valid namespace, and a rename on it whose ancestor walk never ends |
| KeyLists.SortUnique | src/meta_state.cc:343-344 | sorting and dropping adjacent duplicates gives the strictly sorted list of the same keys |
| ObjectKeys.ObjectKeyGenerator.MakeObjectKey | src/fuse/file_io.cc:70-80 | the key's format and the advance of the sequence number |
| Text.DecimalStandsFor | src/fuse/file_io.cc:77-78 | the numbers in keys and messages are printed in decimal, without leading zeros |
| ObjectKeys.ObjectKeyInjective | src/fuse/file_io.cc:70-80 | a key determines inode, writer, sequence and offset |
| ObjectKeys.GeneratedKeysNeverCollide | src/fuse/file_io.cc:66-80 | keys of one generator are distinct, generators with different writer ids are disjoint |
| ObjectKeys.KeyUnderPrefix | src/gc_service.cc:18-23 | every generated key lies under the prefix the collector scans |
| FileIo.ReadExtentsIntoBuffer | src/fuse/file_io.cc:30-62 | the in-place loop computes the specified buffer or the first fetch error |
| FileIo.ReadIntoBytes | src/fuse/file_io.cc:30-62 | every buffer position shows the byte the extent list maps it to |
| FileIo.ReadsArePlain | src/fuse/file_io.cc:86-139 | a read is a plain read of the overlay of committed, pending and appended extents |
| FileIo.ReadAlikeIff | src/fuse/file_io.cc:86-139 | all reads through two handles agree if and only if they show files of the same size and bytes |
| PartialReads.ReadFailsIff | src/fuse/file_io.cc:86-139 | a read fails if and only if it starts before the file, or needs an object that is missing, and names the first missing one |
| PartialReads.ReadShows | src/fuse/file_io.cc:30-62 | where an object is too short, what lies below shows through |
| FuseClient.FuseServer.ReadHandle | src/fuse/file_io.cc:86-139 | the loops over pending extents and the three passes compute that read |
| FuseClient.FuseServer.PulpfsWrite | src/fuse/fuse_server.cc:434-480 | one object stored under a new key and one extent queued at the right offset; a refused or failed write queues nothing |
| FuseClient.FuseServer.CommitOpenHandle | src/fuse/fuse_server.cc:125-159 | the flush, for every fate of its four remote calls |
| Handles.WriteThenRead | src/fuse/fuse_server.cc:448-477 | a buffered write shows its bytes at once and changes no other byte; appends land at the end |
| Handles.WritesKeepWellBuilt | src/fuse/fuse_server.cc:448-477 | what any sequence of writes keeps of a handle |
| Handles.FlushMergesOverlay | src/fuse/fuse_server.cc:125-159 | a successful flush leaves the server with exactly the overlay |
| Handles.FlushKeepsReads | src/fuse/fuse_server.cc:125-159 | every read gives the same bytes before and after a successful flush |
| Handles.SessionKeepsReads | src/fuse/fuse_server.cc:434-480 | the same for any session of writes, and for whoever opens the file next |
| Provenance.WriteRecords | src/fuse/fuse_server.cc:451-477 | a write queues one extent that records key, size and tag of the object just stored |
| Provenance.BatchPieces | src/meta_state.cc:17-57 | whatever merging leaves is a piece of a stored or merged extent: same object, tag, checksum and size, range inside |
| Provenance.CutPieces | src/meta_state.cc:449-465 | the same for truncation |
| Provenance.ApplyPieces | src/meta_state.cc:348-475 | the same for every command |
| Provenance.SessionKeepsInside | src/fuse/fuse_server.cc:434-480 | over opening, writing and flushing, extents stay inside their objects if the opened layout's did |
| Provenance.SessionKeepsRecords | src/fuse/fuse_server.cc:434-480 | and keep recording their objects' sizes and tags as they are in the store |
| Faults.ReadsAgreeIffFetched | src/fuse/fuse_server.cc:130-157 | all reads agree across an answered flush if and only if the layout is fetched or the buffered writes change nothing |
| Faults.FailedFlushKeepsPending | src/fuse/fuse_server.cc:131-150 | a flush that fails keeps everything buffered |
| Faults.EmptyFlush | src/fuse/fuse_server.cc:125-159 | a flush of a handle that holds nothing does nothing |
| Faults.FlushIsOneCommand | src/fuse/fuse_server.cc:125-159 | a flush is one command to the server: its effect, the error it fails with, and the handle it leaves |
| Faults.RetryPositioned | src/fuse/fuse_server.cc:130-142 | retrying a failed positioned flush leaves size and bytes of one flush, whether or not the first attempt was executed |
| Faults.RetryAppended | src/fuse/fuse_server.cc:144-157 | retrying a failed append stores it once if and only if the first attempt was not executed, and else a second time behind the first |
| Collecting.GcService.RunOnce | src/gc_service.cc:44-138 | a run deletes exactly the orphans under its prefix, leaves counters that say how many objects under the prefix met each fate, and returns 0 if and only if no deletion failed |
| Collecting.GcService.SweepPage | src/gc_service.cc:91-124 | one page of the scan: exactly its orphans go, each object counted by its fate |
| Collecting.PageCensus | src/gc_service.cc:79-130 | page by page the counters cover every object once, deletions under way notwithstanding |
| Collecting.CleanCensus | src/gc_service.cc:109-137 | the failure counter is zero exactly when no orphan is one the store refuses to delete |
| Collecting.PageSwept | src/gc_service.cc:79-130 | page by page the sweep covers every key once |
| Collecting.PageIsEvents | src/gc_service.cc:79-124 | what the sweep of a page does is one listing and deletions of listed objects, each enabled in the protocol |
| Collecting.CollectorBegins | src/gc_service.cc:57-64 | reading the live list and fixing the cutoff in time are enabled and bring a collector to its sweep |
| Collecting.RunIsSafe | src/gc_service.cc:57-130 | so a run that starts where an interleaving led to leaves every live object stored, under the timing bound |
| Objects.ObjectStore.ListObjects | src/object/s3_store.cc:152-177 | a page holds the first keys behind the token, in order, and misses none |
| GcProtocol.DeleteKeeps | src/gc_service.cc:91-113 | what the sweep deletes is not live and can no longer be committed |
| GcProtocol.GcIsSafe | src/gc_service.cc:57-130 | over every interleaving live objects stay stored and deleted ones are never committed, if delay plus gap is below the grace period |
| GcProtocol.GcSafeIff | src/gc_service.cc:57-130 | and only then: otherwise some interleaving deletes a live object |

## Left out

- Raft, gRPC, threads, locks and `ReadIndexSync`: the log is a given sequence of commands, applied one at a time.
- Parsing and printing of protobuf messages, the empty and the unparsable log entry, and the chunked snapshot
  reader: messages are datatypes.
- Error message texts, gRPC status and errno translation, logging, flags and process start-up.
- `Lookup`, `GetAttr` and `ReadDir`: one-step reads of the tables.
- FUSE callbacks other than write, read and flush, the lookup of the handle, the check for a configured store, and
  the `parents_` hint map.
- Clocks, random writer ids and etags are inputs; writer ids are assumed free of '/' where keys must differ.
- The sort of `MergeExtent` is modelled as stable; equal offsets arise only when an extent's end has wrapped.
- A ranged get past the end of an object answers with no bytes here. The theorems about flushes assume that each
  extent's object is present and covers its range; `PartialReads` does not.
- Buffers larger than 2^63 bytes, which the program cannot allocate: the end of a read is computed without wrap.
- A read that fails before a flush because an overwritten object is missing, and succeeds after it.
- The conversion of the grace period from seconds, the check for an empty bucket name, and the byte counts of the
  collector's log lines.
- Collecting.GcService.RunOnce: states the effect on a bucket nobody else changes meanwhile, and that its steps are
  events of `GcProtocol`, where other events may come between them.
- MetaFiles.ErrorsChangeIff: assumes that the last extent merged names an object the file does not hold yet, as every
  new write does; a batch that repeats stored extents can merge into the very same list. What a reader sees is stated
  without that assumption in MetaFiles.ErrorsKeepReadsIff.
- Faults.RetryAppended: assumes that the file with the bytes stored twice stays below 2^64.
- MetaInvariant.ApplyKeepsValid: assumes that the 64-bit inode counter has not run out, because the program reuses
  numbers after that.
- Handles.FlushKeepsReads: assumes no other writer between opening and flushing, as the program ignores versions.
