# FUSEE-FS in Dafny

FUSEE-FS is a file system on top of FUSEE, a key-value store whose clients keep a replicated hash
index on passive memory servers. The servers run no index logic: clients read remote words, write
them and compare-and-swap them. This project models four parts of the system and proves what they
promise.

**One index slot, many clients** (`Consensus`, `SlotProtocol`, `SlotInvariant`, `SlotVotes`,
`SlotSteps`, `SlotFinish`, `SlotTheorems`, `SlotSystem`, `StaleRead`, `Linearizability`,
`CachedUpdate`, `IndexRecovery`, `AddressCache`). An index slot is a primary word and any number of backups. An
UPDATE reads the slot, swaps every backup, classifies the words that came back, and, if it won,
repairs the backups, commits its log entry and swaps the primary. The protocol is a state machine
whose steps are the single remote operations, in every interleaving, for every number of clients and
replicas (one replica included) and with stragglers from earlier rounds still running. The classifier
itself, with its ordered map of counts, is proved against a statement of the rule that mentions no map.
On top of the slot come searches and the clients' slot caches, and below it crash recovery.

**Memory** (`Packing`, `BlockMap`, `BlockTiling`, `ReplicaMap`, `ServerMemory`, `Queues`,
`ClientMemory`, `LogChain`, `AllocatorRecovery`, `Allocation`, `AllocationRuns`). Client and servers compute the same
static map of replica groups; the servers hand out blocks, clients cut them into subblocks, and each
log entry names the subblock of the next one. A restarted client walks that chain and rebuilds its
allocator. `AllocationRuns` puts all clients and servers together, with every allocation, undo and
log entry as an event, and derives what the other parts ask for: no two allocations share a slot
word, every client can be recovered, and a slot can be redirected to another copy of its object.

**The index as a map** (`Bits`, `RaceIndex`, `RaceTable`). What each part of a hash value
decides, bucket addressing, the two scans of a key's window of four buckets, and the refinement of a
plain map by insert, update, delete and search.

**The file-system engine** (`Path`, `FsTree`, `FsStore`, `FsEngine`). Paths, the tree of inodes and
entries, its image in the store under decimal keys, permissions, and the calls with their rollback.

Code that changes things step by step is a method or a class here: the classifier's loops, the
mapping loops, the allocators, the drain, the traversal, recovery, the window scans, the cache, the
path functions and the engine. Remote operations are atomic and reliable. The network, clocks,
thresholds and the servers' answers are parameters. Every hypothesis a theorem needs is in its
`requires`.

Several proofs turn on details of the code:

- The alignment test of the mapping loops, `ptr & 0xFF != 0`, compares `0xFF` with 0 first and so tests one bit
  (`BlockMap.Fill`). Packing a server id in the low byte needs real alignment, which
  `ReplicaMap.Packable` states.
- `find_empty_slot` makes a second turn over the overflow buckets that overrides the first, so an
  overflow slot is preferred to a main one.
- INSERT does not look for its key: a key already present ends up in two slots
  (`RaceTable.StoredTwice`).
- A losing update returns when the primary has moved, which may be before the winner has invalidated
  the replaced object. The cache's promise therefore holds after the *winner* has returned and not
  after a loser has; `StaleRead` gives the run.
- Updates that start from a cached slot may read a word long replaced. All safety results cover
  them. They keep every continuation of a run linearizable exactly if the cached word is still the
  current one or its object is already invalidated (`CachedUpdate.CachedExactly`), and
  `CachedUpdate.CachedUpdateBreaks` gives a run without a legal order.
- Recovery compares addresses without server ids when it looks for its own object. An object at that
  address on another server ends the search early, and keys are then matched against buffers that
  were not read. `IndexRecovery.FoundExactly` says exactly when recovery still settles on the right
  slot, `IndexRecovery.AliasedCrash` gives an input where it does not.
- `mm_free_cur` puts a subblock back and leaves its log entry. The log stays right exactly if the
  subblock was the client's latest allocation (`LogChain.RetakenExactly`); otherwise a restarted
  client takes later objects, still in use, for free (`LogChain.LaterForgotten`).
- `GetNewInodeId` never requests a new group: its double check sees the same exhausted counter.
- Only one trailing slash is dropped, so a path ending in two has an empty last component.
- A directory made with file-type bits in its mode is not a directory, and Rmdir refuses it.

## Model

| member | source | states |
|---|---|---|
| Consensus.CheckCasConsensus0 | src/client.cc:2007-2091 | the tallying loops decide exactly as the rule on the votes does; the retries are, in order, exactly the backups that returned another update's word, each expecting that word |
| Consensus.CheckCasConsensus1 | src/client.cc:2180-2194 | success exactly when every repaired backup returned the word expected there |
| Consensus.RetriesRepair | src/client.cc:1747-1773 | made in order on what the first round left, every retry finds the word it expects and then all backups hold the new word |
| Consensus.ElectsUnique | src/client.cc:2042-2070 | majority or else smallest word: never two words elected |
| Consensus.ElectsExists | src/client.cc:2042-2070 | some written word is always elected |
| Consensus.ClassifyMeetsRule | src/client.cc:2057-2083 | on the first-written words a client classifies itself winner exactly when it is elected |
| SlotSteps.SwapBackupStep | src/client.cc:3169-3232 | a backup swap, first or late, hit or miss, keeps the invariant |
| SlotSteps.DecideStep | src/client.cc:1704-1746 | classifying the answers keeps the invariant: winners are elected, losers are not |
| SlotSteps.PeekStep | src/client.cc:2071-2083 | the look at the primary keeps it, including the finding that the round is already over |
| SlotSteps.RewriteStep | src/client.cc:1747-1773 | a winner's repair of one backup keeps it and always succeeds |
| SlotFinish.CommitStep | src/client.cc:2246-2269 | the log entry is committed with every backup already holding the new word |
| SlotFinish.SwapPrimaryStep | src/client.cc:1838-1885 | the primary swap closes the round and opens the next with all backups equal |
| SlotFinish.ReturnStep | src/client.cc:1886-1925 | a winner returns after swap and invalidation, with its word in the history |
| SlotFinish.PollStep | src/client.cc:1720-1739 | a loser returns only when the word it read has been replaced |
| SlotFinish.StepInv | src/client.cc:430-450 | every step of an update keeps the invariant |
| SlotFinish.ReachableInv | src/client.cc:430-450 | every state of every run satisfies the invariant |
| SlotTheorems.UniqueWinner | src/client.cc:2007-2091 | at any two moments of any run, two updates told they won the same round are the same update |
| SlotTheorems.WinnerExists | src/client.cc:2007-2091 | once every contender of a round has decided, exactly one has won, and it is the elected word |
| SlotTheorems.WinnerStays | src/client.cc:1704-1774 | a winner is never demoted later in the run |
| SlotTheorems.ReplicaAgreement | src/client.cc:1747-1773 | in every reachable state a backup holds the primary word or the new word of an update that read it |
| SlotTheorems.AgreementAtSwap | src/client.cc:1851-1876 | at every primary swap all backups already hold the new word and the swap succeeds |
| SlotTheorems.IdleAgreement | src/client.cc:1851-1876 | with no update working on the current word, all copies are equal |
| SlotTheorems.WinnerUndisturbed | src/client.cc:1764-1769 | a winner's repairs and primary swap never fail: the two error branches are unreachable |
| SlotTheorems.NoDeadlock | src/client.cc:1720-1739 | while an update has not returned, some update can take a step that makes progress |
| SlotTheorems.Drains | src/client.cc:430-450 | between new invocations the steps left shrink with every step but idle polls, so every run settles |
| SlotSystem.CachedWordWasPrimary | src/client.h:222-254 | every cached slot word was the primary word at some time |
| SlotSystem.CacheCoherence | src/client.cc:2425-2449 | a search that starts after a winning update returned never returns the word it replaced |
| SlotSystem.StaleOnlyByCache | src/client.cc:2514-2563 | a search begun after a word was replaced returns it exactly if it began with that word in its client's cache and its object was not yet invalidated when checked |
| StaleRead.LoserReturnIsNotEnough | src/client.cc:1720-1739 | a run where a cached search that starts after a losing update returned still returns the replaced word |
| Linearizability.Linearizable | src/client.cc:1710-1740 | every run whose cached words, where updates use them, were current at the invocation has a legal order: all completed operations, only invoked ones, each search returning the word stored before it, real time respected |
| CachedUpdate.Untimely | src/client.cc:3064-3100 | any run can be continued, with one update from a replaced word not yet invalidated, to a run with no legal order |
| CachedUpdate.CachedExactly | src/client.cc:3064-3100 | using a cached word is safe in every continuation exactly if it is the current word or its object is invalidated |
| CachedUpdate.CachedUpdateBreaks | src/client.cc:3064-3100 | a run in which a cached update makes every order illegal |
| AddressCache.Cache.Update | src/client.h:222-254 | the entry still summarises its key's history: latest slot, the addresses of the last store that brought news, stores and uses, changes |
| AddressCache.Cache.Check | src/client.h:256-279 | a hit exactly for a trusted entry with a pointer: the latest slot with its addresses; the miss rate is a proper fraction; null pointers are dropped |
| AddressCache.Cache.Serve | src/client.cc:2437-2447 | a use counts as an access and changes no slot |
| AddressCache.Cache.Redirect | src/client.cc:2350-2356 | the cached slot stays on a healthy server or moves to one its block's entry names, uncounted; no answer exactly when the block is unknown or all its servers are down |
| AddressCache.Cache.Remove | src/client.h:281-286 | the key is forgotten, all others kept |
| IndexRecovery.InterruptedCrashed | src/client.cc:452-482 | an update interrupted anywhere in any run of the protocol, with no other under way, leaves a state that recovery covers |
| IndexRecovery.Replicas.NeedsPrimary | src/client.cc:2196-2244 | after a commit the primary is to be swapped exactly when it still holds the old word, at the slot the backups show |
| IndexRecovery.Replicas.FindKey | src/client.cc:4706-4742 | the first candidate with the key, unless a candidate has the own address: then the first that the unread buffers match |
| IndexRecovery.FoundExactly | src/client.cc:4706-4742 | recovery settles on slot `j` whatever the buffers hold exactly if the key is first there and no candidate has the own address |
| IndexRecovery.AliasedCrash | src/client.cc:4706-4742 | a crash state where an object at the own address on another server misleads it |
| IndexRecovery.Replicas.SwapBackups | src/client.cc:4776-4785 | every backup ends with the new word whatever subset already had it, and every intermediate state can be recovered again |
| IndexRecovery.Replicas.FinishCommitted | src/client.cc:4812-4829 | the committed branch completes the update |
| IndexRecovery.Replicas.Redo | src/client.cc:4730-4810 | the uncommitted branch completes the update exactly if it settled on the right slot |
| IndexRecovery.Replicas.RecoverUpdate | src/client.cc:4565-4578 | the update is completed (new word in all replicas, log committed, no other slot changed) exactly if it was committed or recovery settled on its slot; recovery may then be interrupted anywhere and started again |
| IndexRecovery.RecoverAgain | src/client.cc:4565-4578 | once completed, a further recovery changes nothing and writes nothing, aliased or not |
| Packing.Convert64To40Bits | src/hashtable.h:175-181 | the five bytes are the address digits above the lowest byte |
| Packing.UnpackPack | src/hashtable.h:168-181 | an aligned 48-bit address survives the 40-bit pointer |
| Packing.PackUnpack | src/hashtable.h:168-181 | every 40-bit pointer is the packing of an aligned address |
| Packing.SlotRoundTrip | src/hashtable.h:38-43 | slot to word and back |
| Packing.WordRoundTrip | src/hashtable.h:188-190 | word to slot and back |
| Packing.SlotWordValue | src/hashtable.h:38-43 | fingerprint, length and server are the three low bytes of the word, then come the pointer bytes |
| Packing.SlotWordInjective | src/client.cc:924-930 | slot words are equal exactly when fingerprint, length, server and address are |
| Packing.TailRoundTrip | src/client.cc:3922-3927 | server and address survive the 6-byte log pointer |
| BlockMap.SkipFull | src/client_mm.cc:96-97 | the skip loop terminates at the next server whose area is not used up |
| BlockMap.MapGroups | src/client_mm.cc:86-114 | the mapping loop terminates on every configuration, with the groups of `Mapped` or at its error exit |
| BlockMap.RoomSomewhere | src/client_mm.cc:94-97 | while groups are missing some server has room, so the skip loop cannot spin |
| BlockTiling.Tiling | src/client_mm.cc:86-134 | no error exit, (server, block) pairs correspond one to one with (group, position) pairs, and a group's members are on distinct servers |
| ReplicaMap.MappedApart | src/client_mm.cc:99-112 | blocks of different groups on one server never overlap |
| ReplicaMap.GetBlockMap | src/client_mm.cc:86-134 | each member of each group leads to all the others, the first is allocatable, and there are no other entries |
| ReplicaMap.CheckFailedCache | src/client.cc:1593-1627 | a slot on a crashed server moves to the first healthy server its block's entry names; no answer means none is named |
| ReplicaMap.RedirectionPreservesObject | src/client.cc:1604-1622 | every place the entry names is another copy of the same object, whichever copy was cached |
| ReplicaMap.RedirectionExhaustive | src/client.cc:1614-1626 | the entry names no healthy server exactly when no other copy is on one |
| ReplicaMap.MappedRedirectable | src/client.cc:1604-1607 | with the block area on a multiple of the block size, every group of the map can be redirected |
| Allocation.RedirectedToCopy | src/client.cc:1593-1627 | the substituted slot is that of another copy `mm_alloc` handed out for the same object |
| ServerMemory.GetAllocableBlocks | src/server_mm.cc:57-96 | the server queues the first blocks of the groups that start at it |
| ServerMemory.QueueRises | src/server_mm.cc:57-96 | no block is queued twice |
| ServerMemory.Agreement | src/client_mm.cc:156-161 | a queued block is in the client's table under that server, with its own group's other members: "cannot have allocated" is unreachable |
| ServerMemory.AgreementBack | src/client_mm.cc:116-131 | every key of the client's table waits in exactly its server's queue |
| ServerMemory.ServerMM.Alloc | src/server_mm.cc:98-107 | 0 exactly when nothing is left; never a block some client holds |
| ServerMemory.ServerMM.Free | src/server_mm.cc:109-116 | refused exactly unless the block is held; a freed block is queued once |
| Queues.Merge | src/client_mm.cc:566-581 | one subblock per queue in turn, all queues end empty, nothing is lost or doubled |
| Queues.Drain | src/client_mm.cc:749-764 | the drain terminates with the head followed by exactly what was queued |
| ClientMemory.ClientMM.constructor | src/client_mm.cc:521-582 | a new client's queue deals out the blocks in turns: in turn k, on every replica, the subblock (lead + k) * size bytes into each block |
| ClientMemory.ClientMM.LocalRegBlocks | src/client_mm.cc:455-480 | the queue grows by the data subblocks of the block, number k on every replica (lead + k) * size bytes into it |
| ClientMemory.OffFits | src/client_mm.cc:466-474 | successive subblocks are one subblock size apart and stay inside the block |
| ClientMemory.ClientMM.Alloc | src/client_mm.cc:322-363 | the head is handed out with the new head as its successor and the former allocation as its predecessor; without a next block it is dropped |
| ClientMemory.ClientMM.FreeCur | src/client_mm.cc:296-316 | conservation is kept: the subblock is at the head and outstanding no more, and nothing is free and outstanding at once |
| ClientMemory.ClientMM.AllocThenFree | src/client_mm.cc:296-363 | `mm_free_cur` right after `mm_alloc` restores the client, but for a block obtained on the way |
| ClientMemory.AllocatorConserves | src/client_mm.cc:296-363 | registration, allocation, the out-of-space return and `mm_free_cur` conserve the registered subblocks |
| ClientMemory.Partition | src/client_mm.cc:296-363 | free, outstanding and dropped subblocks are duplicate-free, disjoint and together all registered ones |
| ClientMemory.UndoneTaken | src/client_mm.cc:296-316 | `mm_free_cur` undoes `mm_alloc`, through the combined addresses |
| LogChain.Traverse | src/client_mm.cc:636-682 | the walk terminates and visits exactly the chain, in order |
| LogChain.LoggedInit | src/client_mm.cc:643-644 | a new client's chain starts where the walk starts |
| LogChain.LoggedNext | src/client.cc:3922-3927 | each logged allocation extends the chain by one, also across blocks |
| LogChain.AllocLogged | src/client_mm.cc:322-363 | an allocation with its entry keeps the chain: the allocations in order, then the head of the free queue |
| LogChain.UndoAhead | src/client_mm.cc:296-316 | giving back the latest allocation leaves the log one entry ahead |
| LogChain.TakeAhead | src/client_mm.cc:322-363 | allocating it again rewrites the same entry, so the log is right again |
| LogChain.RetakenExactly | src/client_mm.cc:296-363 | after giving back any one allocation and allocating again the log is right exactly if it was the latest |
| LogChain.LaterForgotten | src/client_mm.cc:636-682 | otherwise the walk misses every allocation made after it |
| AllocatorRecovery.ScanBlocks | src/client_mm.cc:712-747 | the scan sorts every subblock into head, latest allocation, taken or free |
| AllocatorRecovery.UnseenIsRest | src/client_mm.cc:727-743 | what the walk did not visit is exactly the queue behind its head |
| AllocatorRecovery.RecoverBlocks | src/client_mm.cc:695-767 | the rebuilt queue has the same head and the same subblocks as often, and the latest allocation is restored |
| AllocatorRecovery.RecoverAllocator | src/client_mm.cc:636-767 | traversal and rebuilding together restore the crashed client's allocator |
| AllocatorRecovery.SameQueue | src/client_mm.cc:695-767 | crashed and rebuilt queue are duplicate-free with the same subblocks |
| Allocation.ProperSetting | src/client_mm.cc:86-134 | every configuration that tiles meets the assumptions of the theorems about all clients and servers |
| Allocation.PrimaryApart | src/client_mm.cc:466-474 | every subblock of every group has its own primary copy |
| AllocationRuns.RunInv | src/server_mm.cc:98-107 | in every run, `mm_free_cur` included, no group is held twice or held and waiting, and every client's pool is conserved |
| AllocationRuns.AllocationsApart | src/client_mm.cc:322-363 | two outstanding allocations by any clients have the same primary copy only if they are the same |
| AllocationRuns.FreshWords | src/client.cc:924-930 | in every run different outstanding allocations yield different slot words |
| AllocationRuns.FreshForever | src/client.cc:924-930 | without `mm_free_cur` no word is ever used twice |
| AllocationRuns.InvokeEnabled | src/client.cc:3169-3232 | so the word of a new object is always new to the slot it is swapped into |
| AllocationRuns.RunTracked | src/client_mm.cc:296-363 | in every run in which `mm_free_cur` gives back the latest allocation, each client's log describes the client |
| AllocationRuns.RecoverClient | src/client_mm.cc:636-767 | so any client can crash at any moment of such a run and be rebuilt: right head, right subblocks, right latest allocation, those given back counted as allocated |
| AllocationRuns.RedirectAllocation | src/client.cc:1593-1627 | a slot of any copy of any outstanding allocation of any run is redirected to a healthy copy of the same allocation, and to none exactly if all its servers crashed |
| RaceIndex.Locate | src/hashtable.h:156-166 | bits 32 to 36 of the hash are the subtable and the first index is its residue; both indices lie in their halves |
| RaceIndex.LocateTable | src/client.cc:600-602 | the subtable read off any hash value written as high, table and low part |
| RaceIndex.LocateFingerprint | src/hashtable.cc:166-173 | each fingerprint bit is the exclusive or of one bit of each of the two top bytes |
| RaceIndex.LocateSecond | src/hashtable.h:160-166 | the second index is the residue of the word that, mixed with the first index, gives the multiple of the constant chosen by bits 17 to 31 |
| RaceIndex.WindowFits | src/client.cc:607-645 | the 28 slots of a window are distinct and inside the subtable |
| RaceIndex.WindowBuckets | src/client.cc:607-645 | which bucket of the subtable each slot of the window is in, main and overflow, for both indices |
| RaceIndex.MainAndOverflow | src/client.cc:618-632 | each index reads one main bucket and the overflow bucket of its three |
| RaceIndex.GetFreeSlotNum | src/hashtable.cc:143-155 | the number of free slots and the last of them |
| RaceIndex.IsEmptyPointer | src/hashtable.cc:157-164 | all bytes are zero |
| RaceIndex.FreeIs | src/hashtable.cc:143-155 | free means no fingerprint, no length and the null address |
| RaceIndex.FindEmptySlot | src/client.cc:1481-1535 | no slot exactly when all four buckets are full; otherwise the last free slot of the bucket with more room, an overflow bucket if either has any |
| RaceIndex.FindKv | src/client.cc:1364-1399 | exactly the slots in use with the fingerprint, in window order |
| RaceTable.FindMatch | src/client.cc:1670-1682 | a candidate with the key, or none has it |
| RaceTable.StoredRefines | src/client.cc:3169-3232 | filling a free slot for an absent key, or replacing the key's slot, is one update of the map |
| RaceTable.RemovedRefines | src/client.cc:3581-3639 | zeroing the key's slot removes the key from the map and nothing else |
| RaceTable.StoredTwice | src/client.cc:2757-2788 | an insert keeps keys unique exactly when its key was absent |
| RaceTable.KeyVisible | src/client.cc:1364-1399 | a present key is in its window and passes the fingerprint test |
| RaceTable.Index.Search | src/client.cc:1364-1399 | the answer of the map |
| RaceTable.Index.Insert | src/client.cc:2757-2788 | fails exactly when the window is full; for an absent key it is the map's insert |
| RaceTable.Index.Update | src/client.cc:3169-3232 | succeeds exactly for a present key, and is the map's update |
| RaceTable.Index.Delete | src/client.cc:3581-3639 | succeeds exactly for a present key, and is the map's removal |
| Path.SplitPath | fs/common/path.cc:8-21 | the loop computes the nonempty pieces between slashes |
| Path.SplitJoin | fs/common/path.cc:8-21 | splitting undoes joining |
| Path.FormatPath | fs/common/path.cc:38-55 | the erasing loop terminates with no adjacent slashes |
| Path.FormatPreservesSplit | fs/common/path.cc:38-55 | normalising keeps the components, for every string |
| Path.FormatIs | fs/common/path.cc:38-55 | the formatted path is its components, each after one slash, and a last slash exactly if it ended in two |
| Path.SeparateSplit | fs/common/path.cc:23-36 | directory part and last component together split as the path does |
| Path.FormatLastEmpty | fs/common/path.cc:38-55 | the last component after normalising is empty exactly for "", "/" and paths ending in two slashes |
| FsStore.KeysInjective | fs/engine/engine.h:37-42 | inode keys and entry keys never collide, whatever the names |
| FsStore.DecimalNotation | fs/engine/engine.h:37-42 | keys are decimal: digits only, no leading zero, the value is the id |
| FsStore.SameStore | fs/engine/engine.h:37-42 | the tree determines the store |
| FsTree.WhoReads | fs/common/meta.cc:16-27 | read permission: user 0, or the one octal digit that counts for the caller is at least 4 |
| FsTree.WhoWrites | fs/common/meta.cc:29-40 | write permission: user 0, or that digit is 2, 3, 6 or 7 |
| FsTree.DirectoryMode | fs/engine/engine.cc:311 | keeps the caller's permission bits; a directory exactly when the caller gave no other file-type bits |
| FsTree.FileMode | fs/engine/engine.cc:455 | keeps the caller's permission bits; a regular-file bit, never a directory |
| FsTree.LinkKeeps | fs/engine/engine.cc:309-340 | linking a new inode keeps the tree invariant |
| FsTree.CheckedChildless | fs/engine/engine.cc:384-393 | what Rmdir and Unlink check rules out children |
| FsTree.UnlinkKeeps | fs/engine/engine.cc:394-416 | removing a childless inode keeps the invariant: nothing is orphaned |
| FsTree.UniquePath | fs/engine/engine.cc:174-217 | every inode is reached by one path only |
| FsTree.LookupSame | fs/engine/engine.cc:174-217 | changing an entry affects no lookup that does not go through it |
| FsTree.LookupIs | fs/engine/engine.cc:174-217 | every lookup ends where the path leads if each directory before the last component may be read, and else with what is wrong with the first that may not |
| FsTree.LookupDeeper | fs/engine/engine.cc:174-217 | a name is found exactly if the directory before it may be read and has it, and a directory that may not be read answers EACCES |
| FsEngine.Engine.constructor | fs/engine/engine.cc:41-52 | a tree of the root alone, owned by user 0, readable by all and writable by its owner |
| FsEngine.Engine.GetNewInodeId | fs/engine/engine.cc:55-78 | the next id, or the one after it past the first group: ids strictly increase |
| FsEngine.Engine.PathLookup | fs/engine/engine.cc:174-217 | the walk answers as the lookup on the components, for every path and caller |
| FsEngine.Engine.WriteNew | fs/engine/engine.cc:317-340 | three writes or none |
| FsEngine.Engine.WriteGone | fs/engine/engine.cc:394-416 | three writes or none |
| FsEngine.CreationChecks | fs/engine/engine.cc:279-308 | Mkdir and Creat go ahead exactly in a directory the permission digits open for writing and under a free name; otherwise the first check that fails answers |
| FsEngine.RemovalChecks | fs/engine/engine.cc:343-393 | the same for Rmdir and Unlink, with the kind and emptiness of what is to go |
| FsEngine.Engine.Mkdir | fs/engine/engine.cc:279-341 | keeps the tree invariant for every path, mode and failure; changes nothing when it fails; otherwise links one new directory that belongs to the caller, with the caller's permission bits |
| FsEngine.Engine.Creat | fs/engine/engine.cc:423-484 | the same for a file |
| FsEngine.Engine.Rmdir | fs/engine/engine.cc:343-421 | the same for removing a directory, which has no entries when it goes |
| FsEngine.Engine.UnlinkFile | fs/engine/engine.cc:486-557 | the same for removing a file |
| FsEngine.FirstMkdir | fs/engine/engine.cc:279-302 | on a new engine everybody but user 0 is refused |
| FsEngine.FirstCreat | fs/engine/engine.cc:423-446 | the same for Creat |
| FsEngine.Engine.Stat | fs/engine/engine.cc:559-567 | a path that is found always has its inode |
| FsEngine.UnrelatedLookups | fs/engine/engine.cc:279-557 | no call changes the lookup of a path that does not go through its own |
| FsEngine.MadeIsFound | fs/engine/engine.cc:279-341 | what was made is found by a caller who may read the directory and by no other, and making it again answers EEXIST |
| FsEngine.Engine.MkdirThenStat | fs/engine/engine.cc:279-567 | Stat after Mkdir returns the new inode, its owner, times and permissions, or EACCES |
| FsEngine.RmdirUndoesMkdir | fs/engine/engine.cc:279-421 | Rmdir by the same caller undoes Mkdir exactly when the mode had no file-type bits |
| FsEngine.Engine.MkdirThenRmdir | fs/engine/engine.cc:279-421 | the store is restored exactly |
| FsEngine.UnlinkUndoesCreat | fs/engine/engine.cc:423-557 | Unlink by the same caller undoes Creat for every mode, and Rmdir refuses a file |
| FsEngine.Engine.CreatThenUnlink | fs/engine/engine.cc:423-557 | the store is restored exactly |

## Left out

- IndexRecovery.Replicas.RecoverUpdate: assumes as many index replicas as data replicas and at least two, and a nonzero old word: the update was alone on a slot in use.
- Linearizability.Linearizable: searches ignore the cache in these runs; what a cached search may return is said by `SlotSystem.StaleOnlyByCache` and `SlotSystem.CacheCoherence`.
- SlotSystem.CachedWordWasPrimary: no memory server crashes in these runs; `AddressCache.Cache.Redirect` has the overwriting of a cached slot after a crash, whose word names another copy and was never in the index.
- AllocationRuns.RecoverClient: for clients that have allocated and have lost no subblock: the out-of-space return pops the last one without a log entry and leaves the queue empty.
- RaceTable.Index.Insert: promises the map's insert for an absent key only; for a present key `RaceTable.StoredTwice` says what happens.
- FsEngine.Engine.GetNewInodeId: one thread, so the loop's double check always leaves; the request for a new group is not modelled. Mkdir and Creat assume that fewer than 2^64 ids were drawn.
- FsEngine.Engine.Mkdir: compensating writes succeed and a write that reports failure has no effect.
- Queue pairs, sockets, completion polling, memory registration and remote keys: remote operations are atomic and reliable.
- The retry baseline of `src/client_cr.cc`, which promises no agreement.
- DELETE in the concurrent protocol, which swaps in the reused word 0, and racing INSERTs, whose loser is told it succeeded.
- The synchronous waiting loop, which tests a buffer that the read does not fill.
- Recovery of INSERT, whose committed entry reads as uncommitted.
- `find_kv_in_buckets_on_crash`, and the bitmap of `mm_free` with its batches: unfinished in the source.
- The hash function, an arbitrary function from keys to 64-bit words here; the mixing of the second index is modelled.
- Disjointness of the physical subtables: the source reserves less than they need.
- `fs/central`, several engine threads, and inode-id groups.
- The `children` counter of the root directory, which is never initialised.
- Fibers, timing, core binding, configuration files, workloads, benchmarks, and the cache's miss-rate threshold, which is a boolean parameter.
- 64-bit overflow of addresses: every address is below 2^48.
