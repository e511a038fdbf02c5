# Masstree with in-cache-line logging: a verified model

The program is a key-value store: a trie of B+trees whose nodes live in non-volatile memory.
Time is cut into epochs.  A crash loses the running epoch and nothing before it: the first
change to a leaf in an epoch is logged in slots inside the leaf's own cache lines, later ones in
a copy of the node in a per-thread log, and memory blocks are reached through pointers that carry
their old value with them.

The modules and what they prove:

| module | subject |
|---|---|
| `PersistentPointer` | `PPP`, a pointer in two words that undoes the writes of a crashed epoch when it is read |
| `LeafRecovery`, `LeafNode` | the slots of one leaf, store by store and cache line by cache line; the leaf as an object, method by method equal to that account |
| `LeafEpochs` | one leaf over many epochs and crashes, with the stores of the recovery itself open to the next crash |
| `EpochLog` | many nodes, many threads, the external logs, and recovery of the whole tree |
| `LeafLink` | the doubly linked list of leaves under concurrent splits and unlinks |
| `FlushBarrier` | the stop-the-world barrier around the cache flush that ends an epoch |
| `Reclamation`, `LimboQueue` | epoch-based reclamation: when a block may be freed, and the queue it waits in |
| `Replay` | replay of a key's log records that arrive in any order |
| `TreeModel`, `LeafEntries`, `TreeSplit`, `SplitStores`, `TreeRemove`, `RemoveStores`, `LayerTree` | one B+tree: search, splits up to the root, removal with collapsing and rewritten separators. `LayerTree.Layer` is the object; the other modules hold its invariant and the effect of its stores |
| `KeySlices`, `Slots`, `Layers` | keys of any length: slices, suffixes, and the layers made when two long keys meet. `Layers.Table` is the object; each of its layers is a `LayerTree.Layer` |
| `ScanModel`, `Scan` | a forward scan through the leaves and layers with one key buffer |
| `Permuter` | the order of a leaf's slots, packed into a 64-bit word |
| `MsgPackFormat`, `MsgPackParser`, `StreamingParsers` | the wire format of requests: the writer, a byte-at-a-time account of reading, and the parser object that takes its input in chunks |
| `ObjectJson` | JSON objects: a chained hash table linked through items in insertion order |
| `Options` | an optional value |

Memory is a map from references to nodes where the program has pointers.  Fields marked as ghost
(the range `lo`, `hi` of each tree node, the place of each layer, the order of limbo groups) exist
only in the model.

## Where the code does less than it says

* `PPP` decodes the upper half of an epoch with the mask `0xFF00` after a shift by 32
  (`kvthread_persistent.hh:35`), which reads bits 40 to 47 of the log word. Those are address bits, and the
  data region is mapped at 2^45 (`kvthread_pallocator.hh:40`), so in its addresses one of them is set.
  `CrashUndoesWriteIff` says exactly when a crash undoes the first write of an epoch: when the logged
  address sets none of these bits that the epoch does not set among bits 8 to 15. `DataRegionWriteSurvives`:
  over an address of the data region no write is undone in any epoch below 0x2000. The main theorem covers
  all addresses below 2^48 and all epochs below 0x10000, with this condition on each first write, and
  `UndecodableWriteIsNotUndone` shows that it fails without.
* `PPP` remembers one failed epoch (`currexec` and `failed`). `CrashReadsStartIff` gives the exact
  condition for a crash, and `SecondCrashRevivesFailedWrite` a run that violates it.
* A leaf has the same weakness: `undo_incll` looks for the stamp of the last failed epoch only
  (`masstree_struct.hh:770-793`), and what it and the replay of the logs store is lost like any other store
  if a crash comes before the next checkpoint. `LeafEpochs.CrashKeptIffCleanAndReady` is the exact
  condition: memory and log entries show the checkpoint with nothing left to undo, and no slot is stale.
  `CheckpointCleans`: nothing is left to undo once the leaf was visited and a checkpoint has passed.
* `undo_incll` assumes that one slot is active (`masstree_struct.hh:771`), but slots of earlier epochs
  are not invalidated unless the leaf was logged. `LeafRecovery.Ready` is the exact condition, in fields
  that could be looked at when the epoch starts; `AlwaysRestoredIffReady` proves both directions, and
  `SingleInsertSpoilsNextEpoch` that one insert in an epoch is enough to violate it. The condition also
  covers the seven bits of the epochs kept in the value slots.
* `active_epoch` can pass the epoch that a thread announces (`kvthread.hh:365-378`), because reading the
  global epoch and storing it are two accesses: `ActiveMayPassAnnounced`. `AnnouncedBoundIff` is the exact
  condition on the store. Freed blocks are unused all the same: `FreedBlockIsUnused`.
* `streaming_parser::consume` returns with input left and the parser not done when it completes the header
  of a string that an earlier call had begun (`msgpack.cc:39-53`): `ResumedStringStopsShort`. `Consume`
  states that this is the only case. The loop in `conn::receive` (`mtd.cc:488-492`) calls again and is not
  affected.
* `ObjectJson::erase` computes a bucket before it looks whether there are any (`json.cc:200-201`), where
  `find` looks first. The model requires an object that has held an item.

## Model

| member | source | states |
|---|---|---|
| PersistentPointer.PPP.Load | kvthread_persistent.hh:31-44 | reading returns the current pointer, or the logged one if the stamp says it was written in the failed epoch |
| PersistentPointer.PPP.Store | kvthread_persistent.hh:45-71 | the stores of a write in order, every intermediate pair of words a crash could leave |
| PersistentPointer.StampDecodesIff | kvthread_persistent.hh:32-40 | a stamp written in an epoch decodes to it exactly when the epoch fits and the logged address sets no foreign bit |
| PersistentPointer.DecodesIffBits | kvthread_persistent.hh:35 | bit by bit: a stamp decodes to its epoch exactly when every bit among 40..47 of the logged address is set among bits 8..15 of the epoch |
| PersistentPointer.StampIsMasked | kvthread_persistent.hh:35 | every bit of the stamp, from the bits of the two words as 64-bit numbers |
| PersistentPointer.WordsAreMasked | kvthread_persistent.hh:37-70 | every word that is read or stored, as a 64-bit number: masks and shifts written as arithmetic |
| PersistentPointer.CrashUndoesWriteIff | kvthread_persistent.hh:31-71 | a crash right after the first write of an epoch undoes it if and only if the stamp over the logged address can be decoded, or nothing changed |
| PersistentPointer.DataRegionWriteSurvives | kvthread_pallocator.hh:40-41 | over an address of the data region a crash undoes no write in any epoch below 0x2000 |
| PersistentPointer.UndecodableWriteIsNotUndone | kvthread_persistent.hh:31-71 | at any point of a run, a first write over an address that cannot be decoded survives the crash |
| PersistentPointer.HighAddressKeepsFailedWrite | kvthread_persistent.hh:31-44 | an address with bit 40 set for which the write of the crashed epoch survives |
| PersistentPointer.WriteRepresents | kvthread_persistent.hh:45-71 | each store of a write leaves words that stand for the old value at the epoch's start and the old or new value now |
| PersistentPointer.CrashReadsStartIff | kvthread_persistent.hh:31-71 | a crash gives back the value at the epoch's start if and only if the words were repaired since the crash before |
| PersistentPointer.StepKeepsInv | kvthread_persistent.hh:31-71 | writes, checkpoints, crashes and restarts keep every pair of words a crash could leave meaningful |
| PersistentPointer.RunReadsMeaning | kvthread_persistent.hh:31-71 | over all runs with writes cut anywhere by crashes, for all addresses that the epoch can be decoded over, a read gives the value of a variable that each crash resets to its last checkpoint |
| PersistentPointer.SecondCrashRevivesFailedWrite | kvthread_persistent.hh:45-71 | two crashes without a repairing write between them revive a pointer that never was at a checkpoint |
| LeafNode.Leaf.SaveCl0Insert | masstree_struct.hh:684-710 | the prologue of an insert on the leaf's fields: slot, log copy or nothing, as the event account has it |
| LeafNode.Leaf.SaveCl12Update | masstree_struct.hh:712-743 | the prologue of an update, choosing the value slot of the updated position |
| LeafNode.Leaf.RecordNode | masstree_struct.hh:653-670 | a fully logged change: copy to the log once per epoch, slots invalidated |
| LeafNode.Leaf.InsertKey | masstree_insert.hh:79-92 | inserting a key with its prologue has the effect of the operation's events and logs their image; the new key takes the last free slot and rank `i`, and every other key, value and rank order is as before |
| LeafNode.Leaf.UpdateValue | masstree_insert.hh:48-56 | overwriting a value with its prologue has the effect of the operation's events and logs their image; that value alone has changed |
| LeafNode.Leaf.LazyRecovery | masstree_struct.hh:801-805 | undo runs once per leaf and failed epoch |
| LeafNode.Leaf.UndoIncll | masstree_struct.hh:770-799 | the three slots in the code's order: the first that is valid for the failed epoch is applied, whatever the leaf's own epoch |
| LeafRecovery.EpochShape | masstree_struct.hh:653-743 | the stores of any run of operations in an epoch: at most one served by slots, then at most one log copy before everything else |
| LeafRecovery.InsertLeaves | masstree_insert.hh:171-179 | an insert that no crash cuts, whichever way it is logged: the live positions are the old ones with the last free one at rank `i`, which holds the new key and value |
| LeafRecovery.UpdateLeaves | masstree_insert.hh:48-56 | an update that no crash cuts changes one value and nothing else |
| LeafRecovery.OpeningRestored | masstree_struct.hh:684-793 | whatever prefix of each cache line of the first operation reached memory, undo gives the leaf back |
| LeafRecovery.CrashRestoresEpochStart | masstree_struct.hh:653-832 | for every run of an epoch and a crash at any store, the log image and undo restore the leaf as it was at the epoch's start |
| LeafRecovery.AlwaysRestoredIffReady | masstree_struct.hh:766-793 | recovery is right for every run and crash of an epoch if and only if the leaf starts it ready |
| LeafRecovery.NotReadyLoses | masstree_struct.hh:770-793 | a leaf that is not ready is lost by one operation and one crash |
| LeafRecovery.CleanLeafIsSafeFor128Epochs | masstree_struct.hh:495-501 | a leaf with nothing left in its slots is recovered from every run and crash of the first 128 epochs, and not of any later one |
| LeafRecovery.UndoTwice | masstree_struct.hh:766-805 | recovering again changes nothing |
| LeafRecovery.SingleInsertSpoilsNextEpoch | masstree_struct.hh:684-710 | an epoch with one insert leaves the leaf not ready for any later one |
| LeafRecovery.TwoOpsLeaveReady | masstree_struct.hh:653-743 | an epoch with two operations leaves the leaf ready |
| LeafEpochs.RecoverIs | masstree_struct.hh:770-817 | the stores of the lazy recovery, in order, make the recovered leaf |
| LeafEpochs.CrashKeepsSense | incll_pextlog.hh:191-241 | a crash anywhere in log replay, recovery or operations of a clean and ready leaf, with any of the old log entries left, leaves it as at the checkpoint |
| LeafEpochs.CrashKeptIffCleanAndReady | masstree_struct.hh:766-817 | every crash of an epoch leaves the leaf as at the last checkpoint if and only if the epoch starts with nothing left to undo and no stale slot |
| LeafEpochs.UncleanLoses | masstree_struct.hh:770-805 | a leaf or a log entry with something left to undo is lost by a crash that keeps nothing |
| LeafEpochs.CheckpointCleans | masstree_struct.hh:801-805 | a leaf that was visited has nothing left to undo after the next checkpoint |
| LeafEpochs.RunShowsCheckpoint | masstree_struct.hh:653-832 | over any number of epochs and crashes a visitor sees the leaf as at the last checkpoint, if every crash finds it clean and ready |
| EpochLog.StepKeepsInv | incll_pextlog.hh:111-188 | every event of every thread keeps each node's history and log entries matched |
| EpochLog.CrashRestoresCheckpoint | incll_pextlog.hh:111-241 | over all interleavings and a crash at any event: one log entry per node at most, and replaying all logs in any order with undo on the leaves puts every node back to its checkpoint |
| EpochLog.LeafOperationDone | masstree_struct.hh:653-743 | whatever other threads do meanwhile, when a thread lets a leaf go its operation has been done to the leaf as the thread took it |
| EpochLog.InnerOperationDone | masstree_struct.hh:266-278 | when a thread lets an internode go, each place holds the last value that the operation stored there or the old one, and the node is stamped with the epoch |
| EpochLog.OperationCanEnd | incll_pextlog.hh:111-188 | every operation that has begun can come to its end |
| LeafLink.NextKeepsInv | btree_leaflink.hh:39-99 | every shared-memory access of any thread keeps the list's links exact wherever no thread owns them |
| LeafLink.QuiescentListExact | btree_leaflink.hh:39-99 | when no operation runs, next and prev are inverses and visit exactly the linked and not unlinked leaves in order |
| LeafLink.MarkHasOneOwner | btree_leaflink.hh:39-48 | a marked link belongs to a dead leaf or to exactly one running operation |
| LeafLink.OperationsTakeEffectOnce | btree_leaflink.hh:56-99 | which accesses change the list, and how: a split inserts its new leaf behind its leaf, an unlink removes its leaf |
| LeafLink.EachOperationOnce | btree_leaflink.hh:56-99 | in every run a finished split or unlink has changed the list at exactly one of its steps, by its own insertion or removal |
| LeafLink.EveryOperationCanEnd | btree_leaflink.hh:39-99 | no deadlock: from every reachable state the running operations can all be brought to their ends, after which the links are exact |
| LeafLink.SplitAlone | btree_leaflink.hh:60-71 | at rest a new leaf can be linked behind any linked leaf; run by itself that inserts it there and leaves the links exact |
| LeafLink.UnlinkAlone | btree_leaflink.hh:82-99 | at rest every linked leaf but the first can be unlinked; run by itself that removes it and leaves the links exact |
| FlushBarrier.StepKeepsInv | incll_gf.hh:118-199 | each step of flusher or thread keeps parked threads matched with semaphore tokens |
| FlushBarrier.FlushFindsAllParked | incll_gf.hh:149-199 | the invariant puts all threads between their acknowledgement and their release while the flush runs |
| FlushBarrier.WorldStoppedDuringFlush | incll_gf.hh:118-199 | in every interleaving over any number of rounds the flush runs and the epoch moves only with all others parked and both semaphores at 0 |
| FlushBarrier.RoundFlushesOnce | incll_gf.hh:149-199 | between the start of a round and its end, in every interleaving, the cache is flushed once and the epoch moves by one in a manual round and not at all in a plain one; the flags are down again |
| FlushBarrier.EveryRoundCanEnd | incll_gf.hh:149-199 | no deadlock: from every reachable state the flusher can come to the end of its round |
| FlushBarrier.EveryReleaseIsTaken | incll_gf.hh:118-199 | no release token is lost or made up between rounds |
| FlushBarrier.FastThreadTakesSlowToken | incll_gf.hh:118-147 | from the start there is a run in which a fast thread passes the barrier twice, the second time on the token of a slow thread that never took it |
| Reclamation.StepKeepsInv | kvthread.hh:365-378 | entering, leaving, retiring, scanning and freeing, each access by itself, keep announced and active epochs related |
| Reclamation.FreedBlockIsUnused | kvthread.hh:484-493 | a block is freed only when every thread inside a critical section entered it after the block was unlinked |
| Reclamation.ScanPublishesMinimum | kvthread.hh:484-493 | a finished scan publishes exactly the least of the global epoch it read and the announced epochs it read |
| Reclamation.OldBlockIsFreed | kvthread.cc:140-175 | where all threads inside announce epochs above the stamp of a thread's oldest block, one scan and one collection free it |
| Reclamation.EveryBlockCanBeFreed | kvthread.cc:140-175 | from every reachable state there is a run that frees a given retired block |
| Reclamation.ActiveMayPassAnnounced | kvthread.hh:365-378 | there is a run in which the active epoch passes an announced one |
| Reclamation.AnnouncedBoundIff | kvthread.hh:365-378 | the active epoch stays within the announced one in every continuation of a run while the thread is inside, if and only if at its store neither the active epoch nor the running scan was ahead |
| Reclamation.CleanRunsAreBounded | mtd.cc:936-941 | in runs whose stores are all of this kind the bound holds for every thread |
| LimboQueue.PushBack | kvthread.hh:75-86 | a retired block is appended, after a marker if its epoch is new to the group |
| LimboQueue.CleanUntil | kvthread.cc:115-138 | a group frees exactly the blocks in front that the bound and the count allow; a group that keeps any starts with a marker |
| LimboQueue.Limbo.Refill | kvthread.cc:105-113 | the tail moves to an empty group of the chain, a new one if there is none |
| LimboQueue.Limbo.Record | kvthread.hh:456-461 | a retired block goes to the end of the queue |
| LimboQueue.Limbo.Quiesce | kvthread.cc:140-175 | frees exactly the longest allowed front of the queue, in retire order and once; groups emptied are kept in reserve, and the next bound is set |
| LimboQueue.HookedIsChain | kvthread.cc:150-168 | the two pointer stores that put the emptied groups behind the tail lose no group and make no cycle |
| LimboQueue.FreeableIs | kvthread.cc:115-138 | what may be freed: nothing past the bound, and stopping only there or at the count |
| LimboQueue.OnePassFrees | kvthread.cc:140-175 | one pass frees at most 128 blocks, none retired in or after the active epoch, and all it may within that |
| Replay.Slot.Apply | log.cc:526-602 | one record applied to a key's chain by the code's loops |
| Replay.AppliedAddsRecord | log.cc:526-602 | the chain for a set of records, given one more, is the chain for the larger set |
| Replay.ReplayDependsOnSetOnly | log.cc:526-602 | the chain after a replay depends only on which records were replayed |
| Replay.ReplayAnyOrder | log.cc:526-602 | all records of a key in any order leave the row of timestamp order and no delta marker |
| Replay.ReplayedRowHolds | log.cc:526-602 | the columns of the replayed row, from the records alone: those written since the last record that is no modification, each with the content written last, and the newest timestamp |
| Replay.HistoryGrows | log.cc:526-602 | any later record can follow, if a modification names the record before it: no other condition is put on a key's records |
| TreeModel.UpperBound | ksearch.hh:38-55 | the binary search finds the number of keys not above the key |
| TreeModel.ChildServes | masstree_struct.hh:1235-1284 | the child that a search goes to is not null, lower, and responsible for the key |
| TreeModel.LowerIsInside | masstree_struct.hh:1235-1284 | of two nodes responsible for a key the lower one lies inside the child that the higher one sends the key to |
| TreeModel.ReachIsUnique | masstree_struct.hh:1235-1284 | any leaf responsible for a key is the one that every search for it ends in |
| LeafEntries.Lower | ksearch.hh:63-80 | the entry with a slice and length, or the place where it belongs |
| LeafEntries.IkeyAfterInsert | masstree_split.hh:27-37 | the slice at a position as if the new entry were there |
| LeafEntries.SplitPoint | masstree_split.hh:68-93 | the search for a cut ends, never between equal slices, with both halves non-empty, and nearest to the default |
| LeafEntries.EvenSplit | masstree_split.hh:68-73 | when no two neighbours share a slice, 8 of the 14 or 15 entries stay; at the ends of a layer the new entry is alone in its half |
| LeafEntries.RightEntries | masstree_split.hh:95-106 | the copying loop moves the entries from the cut on, without the new one |
| LeafEntries.HalvesAfterInsert | masstree_split.hh:52-112 | once the new entry is in its half, left and right halves are the old entries with the new one, in order |
| LeafEntries.HalvesAreOk | masstree_split.hh:52-112 | left slices are below the split slice, right ones are not, and the split slice is inside the leaf's range |
| TreeSplit.RaisedIsValid | masstree_split.hh:213-225 | a new root or an internode in a gap between levels completes a split into a valid search tree |
| TreeSplit.AddedIsValid | masstree_split.hh:234-239 | so does adding the new child to its parent |
| TreeSplit.CutIsPending | masstree_split.hh:114-170 | cutting a leaf or internode leaves a tree that lacks nothing but the new sibling's place in its parent |
| LayerTree.RightHalf | masstree_split.hh:135-152 | the three copying cases of an internode split give the right part of the keys with the new one in place |
| LayerTree.Layer.SplitInto | masstree_split.hh:114-170 | both halves of an internode split and the reparented children |
| SplitStores.SplitFilled | masstree_split.hh:135-136 | a full internode cut in the middle leaves 8 keys on the left and 7 on the right, and no other internode loses a key |
| LayerTree.Layer.SplitLeaf | masstree_split.hh:52-112 | both halves of a leaf split, the split slice and the split type |
| LayerTree.Layer.Ascend | masstree_split.hh:201-283 | the upward loop, through full parents, gaps and the root, ends in a valid tree with the same leaves; unless the new entry went alone, no internode that a split touches is left with fewer than 7 keys, but for a new level with its one |
| LayerTree.Layer.MakeSplit | masstree_split.hh:173-286 | after a split no lookup has changed, the returned leaf has room at the entry's place, and no other leaf is empty |
| SplitStores.SplitIsPacked | masstree_split.hh:173-286 | only the half that the new entry goes to may be empty after a split |
| LayerTree.Layer.FindLeaf | masstree_struct.hh:1235-1284 | the descent ends in the leaf responsible for the key |
| LayerTree.Layer.Find | masstree_get.hh:25-55 | a lookup returns the stored value |
| LayerTree.Layer.FinishInsert | masstree_insert.hh:171-179 | the entry appears and nothing else changes |
| LayerTree.Layer.Put | masstree_insert.hh:30-101 | the layer maps the key to the value and every other key as before, stays a valid tree within its widths, and has no empty leaf but the first |
| TreeRemove.CollapsedIsValid | masstree_remove.hh:215-227 | dropping an empty leaf and moving its lower bound up, wherever it occurs, leaves a valid search tree |
| TreeRemove.EmptiedIsValid | masstree_remove.hh:231-241 | a parent left with nothing may stand in as the next empty node |
| TreeRemove.SplicedIsValid | masstree_remove.hh:215-218 | a thin node may be replaced by its child |
| TreeRemove.ThinnedIsValid | masstree_remove.hh:231-241 | a null first child may go with the key after it |
| RemoveStores.RangeGoesLeft | masstree_remove.hh:171-243 | slices of the removed leaf route to the leaf that ended where it started |
| RemoveStores.NoKeyElsewhere | masstree_remove.hh:245-262 | the removed bound is a separator nowhere but on the way that is rewritten |
| LayerTree.Layer.Redirect | masstree_remove.hh:245-262 | the loop rewrites the bound in all nodes above, and ends below the root |
| LayerTree.Layer.RemoveLeaf | masstree_remove.hh:171-243 | the collapsing loop ends in a valid tree without the leaf and with every lookup as before; the first leaf is kept |
| LayerTree.Layer.Remove | masstree_remove.hh:154-168 | the layer forgets the key and nothing else, and no leaf but the first is left empty |
| KeySlices.SliceDetermines | string_slice.hh:54-63 | slice and length determine a short key, and the first eight bytes of a long one |
| KeySlices.CompareIsOrder | masstree_key.hh:133-143 | comparing slices and lengths agrees with byte-string order |
| KeySlices.CompareDecides | masstree_key.hh:133-143 | comparing slices and lengths decides exactly as byte-string order does, in both directions, but for two long keys with the same first eight bytes |
| KeySlices.LessIff | string_slice.hh:54-63 | byte-string order: where two keys first differ, the smaller one ends or has the smaller byte |
| KeySlices.IkeyOfBytes | masstree_key.hh:195-198 | the bytes stored for a slice give the slice back |
| Layers.PrefixLeads | masstree_get.hh:57-60 | the prefix of a layer leads to it from the root |
| Layers.StoredIsFound | masstree_insert.hh:171-179 | a key stored in its spot is found, and every other key is found as before |
| Layers.PushedDownStoresSame | masstree_insert.hh:103-169 | moving a suffix into a layer of its own changes nothing that is stored |
| Layers.TreeMapWith | masstree_insert.hh:30-101 | a change of one slice and length in a layer's B+tree is a change of one spot of the map it stands for |
| Layers.Table.Locate | masstree_get.hh:25-75 | the descent, one B+tree for every eight bytes, ends at the slot that decides about the key |
| Layers.Table.Find | masstree_get.hh:25-75 | the descent through the B+trees returns the stored value |
| Layers.Table.MakeNewLayer | masstree_insert.hh:103-169 | the twig loop ends; nothing stored changes and the new key has a free spot in the last layer |
| Layers.Table.Put | masstree_insert.hh:30-101 | the table of B+trees maps a byte string of any length to the value and every other one as before |
| Layers.Table.Remove | masstree_remove.hh:154-168 | the table forgets one byte string and nothing else |
| ScanModel.EmitAllAscends | masstree_scan.hh:256-309 | the keys of a layered tree ascend strictly in byte-string order |
| ScanModel.ListedIffStored | masstree_scan.hh:256-309 | they are exactly those that a lookup finds |
| ScanModel.AboveInLayer | masstree_scan.hh:220-239 | what a scan from a key has to visit in a layer: the rest of the entry at the key and all later ones |
| ScanModel.ScanResult | masstree_scan.hh:311-392 | what a scan has to deliver, in terms of lookups: the stored keys from the first one on, ascending, each with its value, none left out unless the limit is reached before it |
| Scan.ScanKey.Shift | masstree_key.hh:108-112 | moves to the next slice and keeps the whole key |
| Scan.ScanKey.Unshift | masstree_key.hh:206-211 | moves back to the slice that led into the layer |
| Scan.ReachLeaf | masstree_scan.hh:194-205 | the leaf that is responsible for the slice |
| Scan.LowerInLeaf | masstree_scan.hh:194-205 | the position found in that leaf is the position in the whole layer |
| Scan.FindInitial | masstree_scan.hh:184-240 | at the first key in a layer: emit, go down or go on, with the key in the buffer |
| Scan.FindNext | masstree_scan.hh:256-309 | the next entry that is no duplicate, its key rebuilt in the buffer |
| Scan.ScanFrom | masstree_scan.hh:311-392 | the scan visits exactly the stored keys at or after the first one, in order, each once and with its full key and the value a lookup finds, up to the visitor's limit |
| Permuter.MadeSorted | kpermuter.hh:87-92 | the elements of a sorted permuter, free ones offered in ascending order |
| Permuter.InsertedNib | kpermuter.hh:134-143 | an insertion moves the last element to its place and the others up |
| Permuter.RemovedNib | kpermuter.hh:179-194 | a removal moves later elements down and frees the removed one next |
| Permuter.RemovedToBackInside | kpermuter.hh:212-222 | a removal to the back moves all later elements down |
| Permuter.RemovedToBackLast | kpermuter.hh:212-222 | and puts the removed element last |
| Permuter.ExchangedNib | kpermuter.hh:247-250 | an exchange swaps two elements |
| Permuter.InsertStaysPermutation | kpermuter.hh:134-143 | the first `width` elements stay a permutation, for every width up to 15 |
| Permuter.RemoveStaysPermutation | kpermuter.hh:179-194 | a removal keeps the first `width` elements a permutation, also from a full leaf of width 15 |
| Permuter.ToBackStaysPermutation | kpermuter.hh:212-222 | a removal to the back keeps them one, with the shift by 60 bits at full width |
| Permuter.ExchangeStaysPermutation | kpermuter.hh:247-250 | an exchange keeps them one, also when both positions are the same |
| Permuter.KPermuter.InsertFromBack | kpermuter.hh:134-143 | the operation in place, with the allocated slot |
| Permuter.OnlyNearlyFullLeavesSplit | masstree_split.hh:180-190 | after the exchange only a leaf of at least `width - 1` entries can be split |
| MsgPackFormat.UnsignedIsRead | msgpack.hh:70-115 | every unsigned number below 2^64 is written in a form that is read back as it |
| MsgPackFormat.SignedIsRead | msgpack.hh:84-120 | so is every signed one of 64 bits |
| MsgPackFormat.StringHeaderIsRead | msgpack.hh:157-173 | the header of a string is read as its length |
| MsgPackFormat.ArrayHeaderIsRead | msgpack.hh:180-191 | the header of an array is read as its size |
| MsgPackFormat.MapHeaderIsRead | msgpack.hh:192-203 | the header of an object is read as its size |
| MsgPackFormat.HeaderSizeIs | msgpack.cc:5-16 | for every first byte the length of its header, in literal bytes |
| MsgPackFormat.ShortHeaderMeans | msgpack.cc:59-85 | what each one-byte header announces |
| MsgPackFormat.LongHeaderMeans | msgpack.cc:100-164 | what each longer header announces, its number big-endian, signed ones in two's complement |
| MsgPackFormat.NetIs | msgpack.cc:120-164 | a number in network order is read as written, highest byte first |
| MsgPackFormat.ConstantsOnTheWire | msgpack.hh:61-156 | null, false and true are the bytes 0xC0, 0xC2 and 0xC3, and a double is 0xCB before its eight bytes |
| MsgPackFormat.SignedOnTheWire | msgpack.hh:84-120 | the literal bytes of a signed number in each range |
| MsgPackFormat.UnsignedOnTheWire | msgpack.hh:70-115 | the literal bytes of an unsigned number in each range |
| MsgPackFormat.StringOnTheWire | msgpack.hh:157-173 | the literal bytes before a string of each range of lengths |
| MsgPackFormat.ArrayOnTheWire | msgpack.hh:180-191 | the literal bytes before an array of each range of sizes, and then its elements in order |
| MsgPackFormat.ObjectOnTheWire | msgpack.hh:192-203 | the literal bytes before an object of each range of sizes, and then key and value of each member in order |
| MsgPackFormat.Unparser.Write | msgpack.hh:545-579 | writing a value appends its encoding |
| MsgPackParser.ChunksDoNotMatter | msgpack.cc:19-207 | the outcome of reading does not depend on how the input is cut |
| MsgPackParser.ValueReads | msgpack.cc:63-207 | the encoding of a value is read as that value, at any depth, whatever follows |
| MsgPackParser.RoundTrip | msgpack.cc:19-207 | a fresh parser takes exactly the encoding of a value and ends with an equal one |
| MsgPackParser.MemberIsStored | msgpack.cc:169-178 | a member whose key is a string or a number, and is in the object or not: the object holds the value under the key, and its other members are as before |
| MsgPackParser.NumberKeyIs | msgpack.cc:172-176 | a number as a key is its decimal string |
| MsgPackParser.OtherKeysFail | msgpack.cc:172-173 | any other kind of key ends the account with an error |
| MsgPackParser.RefusedOnTheWire | msgpack.cc:101-103 | the bytes that start no value end the account with an error and are not taken |
| MsgPackParser.WideLengths | msgpack.cc:149-164 | lengths and sizes of 2^31 and more end the account |
| StreamingParsers.StreamingParser.Consume | msgpack.cc:19-207 | one call over a chunk, with a header or string resumed: the outcome is that of the byte account if and only if no string header was resumed with input left |
| StreamingParsers.StreamingParser.Drain | mtd.cc:488-492 | calling again until the buffer is empty or the parser done gives the outcome of the byte account |
| StreamingParsers.StreamingParser.Receive | mtd.cc:488-498 | over any sequence of buffers the outcome is that of the bytes in one piece |
| StreamingParsers.ResumedStringStopsShort | msgpack.cc:28-53 | inputs for which a call stops short |
| ObjectJson.HeldIsListed | json.hh:462-475 | the table holds a key exactly if the list of its items does |
| ObjectJson.ErasedContents | json.cc:200-213 | erasing takes the key out of the list and keeps the order of all others |
| ObjectJson.WithGets | json.cc:138-161 | what every key gets after an insertion |
| ObjectJson.WithoutGets | json.cc:200-213 | what every key gets after an erasure |
| ObjectJson.ObjectJson.Find | json.hh:462-475 | the item of a key, or none if the object has no such key |
| ObjectJson.ObjectJson.Grow | json.cc:98-123 | twice the room, 8 at first, and the same items |
| ObjectJson.ObjectJson.Rehash | json.cc:125-136 | twice the buckets; every live item is reached through the chain of its new bucket |
| ObjectJson.ObjectJson.FindInsert | json.cc:138-161 | the object maps the key to its old value if it has one and else to the new value, listed last; every other key gets what it got before; the buckets double exactly when a new key's bucket had more than four items |
| ObjectJson.ObjectJson.Erase | json.cc:200-213 | the object forgets the key, counts it, and keeps the order of all others; every other key gets what it got before |

## Left out

- Cache flushes, fences and weak memory: stores within one cache line persist in program order, log records at once, and concurrent steps are sequentially consistent.
- Concurrent readers and version validation: tree operations are sequential; only the listed protocols are concurrent.
- PersistentPointer.RunReadsMeaning: writes of aligned addresses below 2^48 over addresses that the epoch can be decoded over, epochs below 0x10000, and no crash before the repair of the last one; each condition is shown to be needed (see above).
- EpochLog.CrashRestoresCheckpoint: one epoch of the whole tree, from memory in which every leaf is ready and nothing is left to undo; many epochs are followed for one leaf, in `LeafEpochs`. Nodes exist at the checkpoint, and the log buffer does not wrap (that branch takes a stale size).
- LeafEpochs.RunShowsCheckpoint: a log entry is copied back field by field, and epochs are unbounded, though slots keep 7 bits of them.
- LimboQueue.Limbo.Quiesce: epochs are unbounded; wrap-around of the signed difference is not modelled. Callbacks run on freeing are not either.
- FlushBarrier.WorldStoppedDuringFlush: threads that finish while others wait are not modelled.
- Replay.ReplayAnyOrder: put, replace and modify records with abstract rows; remove records carry marker bytes that the row parser would have to explain.
- LayerTree.Layer.Put: leaves hold their entries in key order; which slot an entry takes is left to the caller's `slotUsable`, see `Permuter.OnlyNearlyFullLeavesSplit`. The leaf's next pointer is a flag of the caller, the left half of a leaf is cut back before and not after its parent is told, and the root pointer is updated at once and not lazily.
- LayerTree.Layer.RemoveLeaf: dead nodes leave memory at once; reclamation is the subject of other modules, and so is the leaf list.
- Layers.Table.Put: the slot is stored by a second search of its layer, where the code still holds the locked leaf; whether a leaf's only free slot may be taken is any choice. Empty layers (`gc_layer`) are not collected.
- Scan.ScanFrom: a layer is its row of leaves with their bounds; the leaf of a key is found from the right, not through internodes. Retries after concurrent changes and the reverse scan are left out. Keys are at most 255 bytes, as the buffer demands.
- Permuter: `rotate`, `insert_selected` and `exchange_values`. The comment on `remove` asks for a size below `width` (`kpermuter.hh:162-164`), which the code does not need and `finish_remove` does not keep; the model has no such precondition.
- Recovery of the pool heads after restart: the thread constructor zeroes them.
- MsgPackParser.RoundTrip: doubles are eight opaque bytes; a string of 2^31 bytes or more, for which the code's `int` turns negative, ends the account; the untyped `parser` and JSON as text are left out.
- ObjectJson.ObjectJson.Erase: requires an object that has held an item (see above). Sharing of objects (copy on write) is left out.
- `stringbag`, `String`, row types, networking, files and checkpointing of values.
