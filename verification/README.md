# XPChain Core: a verified model

This project models the stateful core of XPChain Core, a full node derived from Bitcoin Core 0.17, in Dafny 4.11 and
proves what its components promise. Everything is checked by `dafny verify dfyconfig.toml`.

Code that computes by expressions is modelled by functions. Code that updates objects in place is modelled by classes
whose methods and loops are proved against specification functions on values; the main results are then lemmas about
those functions. Hash functions, random draws, clock readings and the socket are parameters, so every result
holds for all of their behaviours.

| component | files | main result |
|---|---|---|
| address manager | `AddrManState`, `AddrManOps`, `AddrManOutcomes`, `AddrManRuns`, `AddrMan`, `AddrManCheck` | after any run of operations the five indexes agree, `Check_` passes, and each operation does what it is for |
| its file | `AddrManLoad`, `AddrManSave`, `AddrManFile` | saving and loading loses nothing; loading an arbitrary file gives a consistent manager exactly under a stated condition |
| coins views | `Coins`, `CoinsStack`, `CoinsCache` | a stack of caches of any depth shows what one plain map would, after any legal run |
| check queue | `CheckQueue` | in every interleaving of master and workers the counts are exact, the answer is true and no wake-up is lost |
| cuckoo cache | `Bits`, `Cuckoo`, `CuckooCache` | a lookup of eight slots is exact; an insert gives up at most one element that must be kept |
| Merkle blocks | `Merkle`, `MerkleTree` | proofs are sound, round trips are exact, sizes are bounded |
| block assembly | `MinerPool`, `MinerPackages`, `MinerScore`, `Miner` | the block is minable, each choice is the best, and the search ends for stated reasons only |
| rolling Bloom filter | `Bloom` | the packed words answer as a plain filter over the last keys does, so no recent key is missed |
| block index | `Chain`, `ActiveChain` | skip pointers, forks, locators and the active chain agree with walking by parents |
| big numbers | `Division`, `Digits`, `Limbs`, `LimbShifts`, `Arith256`, `Compact` | limb arithmetic is arithmetic modulo 2^256; compact targets and block work are exact |
| Base58 | `Base58`, `Base58Text` | encoding and decoding are inverse, and the fixed buffers never overflow |
| messages | `Wire`, `NetNode` | what the receiver completes is what the sender pushed, whole and in order, for all ways to cut the bytes |
| Bech32 | `BitOps`, `PolyMod`, `Bech32`, `Bech32Codec` | encoding and decoding are inverse; a changed symbol or a burst of six is detected |

`Basics` holds what several of them share.

Where the code and its comments or documentation disagree, the model follows the code:

- The kicking loop of the cuckoo cache starts at the second location, where its comment says the first
  (`src/cuckoocache.h:406-439`).
- `SpendCoin` answers true for an entry that is cached as already spent (`src/coins.cpp:98-112`); `CoinsStack.SpendAnswer`
  says exactly when the answer is right.
- `Add_` answers true for an unknown address also when its entry finds no slot and is dropped
  (`src/addrman.cpp:296-325`); see `AddrManOutcomes.AddOutcome`.
- `Clear` keeps the queued tried collisions (`src/addrman.h:471-493`), and loading a file restores neither the
  time of the last success nor those of an entry's last try and last counted attempt (`src/addrman.h:366-469`).
- Loading a file that repeats an address can leave an entry without an index (`AddrManLoad.SameTwice`);
  `AddrManLoad.LoadedConsistent` says exactly when it does not.
- `Check_` looks addresses up with an operator that inserts zero, so it accepts a manager whose entry zero is missing
  from `mapAddr` (`AddrManCheck.ZeroUnnoticed`).
- The comment that a partial Merkle tree of N hashes needs at most 2N-1 bits (`src/merkleblock.h:47`) is not true of every
  tree; `Merkle.BitsBound` says exactly of which, and `Merkle.FiveTransactions` is an instance that needs more.
- `ExtractMatches` clears the list of matches and extends the list of indexes (`src/merkleblock.cpp:132-163`).
- The sizes of the packed flags and of the Bloom filter wrap in 32 bits for the largest arguments; the constructors say
  exactly when they do.

## Model

| member | source | states |
|---|---|---|
| `AddrManRuns.RunsAreSafe` | src/addrman.cpp:68-614 | From a fresh manager, every sequence of Add_, Good_, Attempt_, Connected_, SetServices_, GetAddr_, ResolveCollisions_ and SelectTriedCollision_, with any random draws and clock readings, keeps all five indexes consistent and every queued collision meaningful. |
| `AddrManRuns.StepSafe` | src/addrman.cpp:68-614 | Each single operation keeps that invariant from any state that has it. |
| `AddrManCheck.RunsPassCheck` | src/addrman.cpp:397-471 | With a key and positive clock readings, every state reached from a fresh manager passes all conditions of Check_. |
| `AddrManRuns.RunEvolves` | src/addrman.cpp:142-188 | Over a whole run an occupied tried slot stays occupied, and an id keeps its service or disappears for good. |
| `AddrManRuns.RunStamps` | src/addrman.cpp:411-432 | Over a whole run with positive clock readings, no time stamp becomes negative and every tried entry has a success recorded. |
| `AddrManRuns.StepStamps` | src/addrman.cpp:411-432 | Each operation keeps the conditions on time stamps. |
| `AddrManRuns.SelectedIsTried` | src/addrman.cpp:589-614 | What SelectTriedCollision_ returns is an existing tried entry; looking it up creates none; nothing is returned only when the queue is empty or a dead id was dropped. |
| `AddrManRuns.GoodQueues` | src/addrman.cpp:241-251 | Good_ leaves the collision queue alone or adds the known entry, whose tried slot is then occupied, to a queue of fewer than ten. |
| `AddrManRuns.GoodCollisions` | src/addrman.cpp:190-252 | Good_ keeps the queue within ten ids, each of which collides if it still exists. |
| `AddrManRuns.ResolveOutcome` | src/addrman.cpp:540-586 | A queued id that is dead or invalid is dropped; any other has an occupied tried slot, and is dropped, promoted and dropped, or left by what is known of the occupant. |
| `AddrManRuns.QueuedCollides` | src/addrman.cpp:555-575 | A queued entry that exists has an occupied tried slot, so the branch for a collision that has gone away is unreachable. |
| `AddrManRuns.StillQueued` | src/addrman.cpp:537-587 | While the queue is walked and changed, every id still to be visited stays queued. |
| `AddrManRuns.GetAddrReshuffles` | src/addrman.cpp:474-493 | The partial shuffle of GetAddr_ only reorders vRandom, keeping it the inverse of nRandomPos. |
| `AddrManOps.Create` | src/addrman.cpp:81-91 | A new entry gets a fresh id and keeps the indexes linked. |
| `AddrManOps.DeleteFrame` | src/addrman.cpp:113-125 | Deleting an entry removes it and leaves every other entry as it was, up to its place in vRandom. |
| `AddrManOps.DeleteLinked` | src/addrman.cpp:113-125 | Deleting an entry without references keeps the indexes linked. |
| `AddrManOps.SwapRandomReshuffles` | src/addrman.cpp:93-111 | Swapping two places keeps vRandom and nRandomPos inverse to each other. |
| `AddrManOps.ClearNew` | src/addrman.cpp:127-140 | Emptying a slot keeps the indexes linked, changes no table but that slot, and touches no entry but the one in it. |
| `AddrManOps.ReferenceCounts` | src/addrman.cpp:127-140 | An entry in a slot of the new table has a positive reference count: the assert of ClearNew holds. |
| `AddrManOps.Evict` | src/addrman.cpp:161-182 | Moving a tried entry back to the new table frees exactly its tried slot and touches no entry without references. |
| `AddrManOps.Vacate` | src/addrman.cpp:142-183 | Before the entry enters the tried table it has lost all references and its tried slot is free. |
| `AddrManOps.MakeTriedConsistent` | src/addrman.cpp:142-188 | Promotion keeps all structural conditions, reference counts and counters included. |
| `AddrManOps.GoodConsistent` | src/addrman.cpp:190-252 | A success keeps all structural conditions. |
| `AddrManOps.AddConsistent` | src/addrman.cpp:254-325 | An announcement keeps all structural conditions, whether or not the entry finds room. |
| `AddrManOps.ReferConsistent` | src/addrman.cpp:303-323 | Giving a loose entry a reference, or dropping it, restores the structural conditions. |
| `AddrManOps.EvictCounted` | src/addrman.cpp:161-182 | Eviction keeps the counters and the limits on reference counts. |
| `AddrManOutcomes.GoodOutcome` | src/addrman.cpp:190-252 | A success is recorded on the known entry, which ends up in its tried slot unless that is occupied and the caller wants the occupant tested first. |
| `AddrManOutcomes.AddOutcome` | src/addrman.cpp:254-325 | An unknown routable address gets an entry with one reference, in the slot its source selects, exactly when that slot is free or its occupant may be displaced; otherwise no entry is added or changed; the answer is true in both cases. |
| `AddrManOutcomes.PromotionOutcome` | src/addrman.cpp:142-188 | A promoted entry holds its tried slot and no reference; the one it replaces is back in the new table with one reference; no other entry changes but one displaced by that. |
| `AddrManOutcomes.EvictOutcome` | src/addrman.cpp:161-182 | An evicted entry is in the slot of the new table that its own source selects, with one reference. |
| `AddrManClass.AddrMan.constructor` | src/addrman.h:495-498 | A new manager is empty. |
| `AddrManClass.AddrMan.Clear` | src/addrman.h:471-493 | Clearing forgets everything except the queued collisions. |
| `AddrManClass.AddrMan.Find` | src/addrman.cpp:68-79 | The entry of an address, if it has one. |
| `AddrManClass.AddrMan.Create` | src/addrman.cpp:81-91 | The in-place operation computes the specified state. |
| `AddrManClass.AddrMan.SwapRandom` | src/addrman.cpp:93-111 | The in-place swap computes the specified state and keeps vRandom a permutation. |
| `AddrManClass.AddrMan.Delete` | src/addrman.cpp:113-125 | The in-place deletion computes the specified state; its asserts hold at every call. |
| `AddrManClass.AddrMan.ClearNew` | src/addrman.cpp:127-140 | The in-place operation computes the specified state; its assert on the reference count holds at every call. |
| `AddrManClass.AddrMan.RemoveRefs` | src/addrman.cpp:144-152 | The loop over all new buckets removes every reference although it looks at one position per bucket. |
| `AddrManClass.AddrMan.Evict` | src/addrman.cpp:161-182 | The in-place eviction computes the specified state. |
| `AddrManClass.AddrMan.MakeRoom` | src/addrman.cpp:142-183 | After the first half of MakeTried the entry is in no table and its tried slot is free. |
| `AddrManClass.AddrMan.MakeTried` | src/addrman.cpp:142-188 | The in-place promotion computes the specified state. |
| `AddrManClass.AddrMan.FindBucket` | src/addrman.cpp:219-234 | The search for a new bucket that holds the entry, from any starting point, always succeeds: the bail-out is unreachable. |
| `AddrManClass.AddrMan.Promote` | src/addrman.cpp:236-251 | The last part of Good_: queue the entry or promote it. |
| `AddrManClass.AddrMan.Good` | src/addrman.cpp:190-252 | The in-place Good_ computes the specified state. |
| `AddrManClass.AddrMan.AddKnown` | src/addrman.cpp:268-295 | The part of Add_ for a known address. |
| `AddrManClass.AddrMan.Declines` | src/addrman.cpp:278-295 | The reasons for which Add_ adds no further reference to a known entry. |
| `AddrManClass.AddrMan.AddUnknown` | src/addrman.cpp:296-323 | The part of Add_ for an unknown address. |
| `AddrManClass.AddrMan.Refer` | src/addrman.cpp:303-323 | The slot the source selects is taken if it is free or its occupant may be displaced. |
| `AddrManClass.AddrMan.TakeSlot` | src/addrman.cpp:314-317 | The selected slot is emptied and given to the entry, with one reference more. |
| `AddrManClass.AddrMan.Add` | src/addrman.cpp:254-325 | The in-place Add_ computes the specified state and answer. |
| `AddrManClass.AddrMan.Attempt` | src/addrman.cpp:327-347 | The in-place operation computes the specified state. |
| `AddrManClass.AddrMan.Connected` | src/addrman.cpp:495-513 | The in-place operation computes the specified state. |
| `AddrManClass.AddrMan.SetServices` | src/addrman.cpp:515-531 | The in-place operation computes the specified state. |
| `AddrManClass.AddrMan.GetAddr` | src/addrman.cpp:474-493 | The shuffling loop computes the specified state and list. |
| `AddrManClass.AddrMan.ResolveCollisions` | src/addrman.cpp:537-587 | The loop over the changing queue computes the specified state and visits only ids that are still queued. |
| `AddrManClass.AddrMan.ResolveCollision` | src/addrman.cpp:540-586 | One iteration of that loop for a queued id; its last branch is proved unreachable. |
| `AddrManClass.AddrMan.SelectTriedCollision` | src/addrman.cpp:589-614 | The choice of a queued entry and the look-up of its rival. |
| `AddrManCheck.CheckExact` | src/addrman.cpp:397-471 | With no stale addresses, passing Check_ while entry zero is indexed is the same as being consistent with sound time stamps and a key. |
| `AddrManCheck.ZeroUnnoticed` | src/addrman.cpp:424-425 | Check_ accepts a manager whose entry zero is missing from mapAddr, since the look-up creates zero. |
| `AddrManCheck.AllPlaces` | src/addrman.cpp:402-427 | As many places in vRandom as entries, each at its own place, make vRandom a permutation. |
| `AddrManCheck.Check` | src/addrman.cpp:397-471 | The executable check returns zero exactly when all its conditions hold, and changes no look-up. |
| `AddrManCheck.CheckEntries` | src/addrman.cpp:405-432 | The loop over mapInfo checks every entry and collects the two tables. |
| `AddrManCheck.CheckEntry` | src/addrman.cpp:406-431 | The conditions on one entry. |
| `AddrManCheck.CheckTried` | src/addrman.cpp:439-452 | The erasing loop over the tried table decides whether its occupied slots are right and leaves the ids it did not meet. |
| `AddrManCheck.CheckNew` | src/addrman.cpp:454-465 | The counting-down loop over the new table decides whether references and slots agree. |
| `AddrManSave.SaveLoad` | src/addrman.h:316-469 | Saving a consistent manager and loading the file gives a consistent manager with, up to new ids, the same entries, tables, reference counts, key and counters; the file is not refused. |
| `AddrManSave.RebuiltSaved` | src/addrman.h:366-451 | Before pruning, loading has already rebuilt everything and nothing is left to prune. |
| `AddrManSave.NeverRefused` | src/addrman.h:386-392 | A consistent manager has no more entries than slots, so its file is within the limits of Unserialize. |
| `AddrManSave.OneOrder` | src/addrman.h:331-348 | The order in which the entries of a table are written is unique. |
| `AddrManSave.SavedWellFormed` | src/addrman.h:316-363 | The counts in a saved file are those of its lists, and its bucket lists can be used. |
| `AddrManSave.RestoreNewEntries` | src/addrman.h:394-412 | Reading the new entries gives them ids in file order and leaves what was there. |
| `AddrManSave.RestoreTriedEntries` | src/addrman.h:414-433 | Reading tried entries with distinct free slots loses none and puts each in its slot. |
| `AddrManSave.SlotRestored` | src/addrman.h:435-451 | A saved index goes back to the slot it came from, because its entry has fewer references than it had. |
| `AddrManSave.BucketsRestored` | src/addrman.h:435-451 | Reading all bucket lists restores the new table. |
| `AddrManSave.RefsRestored` | src/addrman.h:435-451 | With the table back, every reference count is back. |
| `AddrManLoad.LoadedConsistent` | src/addrman.h:366-469 | For any file that does not end early, of any version, bucket count, bucket lists and counts: the loaded manager is consistent if and only if the counts are not negative and, whenever two of the entries read in share an address, neither of them has found a place in a table. |
| `AddrManLoad.DistinctLoaded` | src/addrman.h:366-469 | In particular a file whose addresses are pairwise different loads to a consistent manager. |
| `AddrManLoad.SameTwice` | src/addrman.h:394-463 | A file that lists one new entry twice and has no usable bucket lists does not: pruning the second erases the address of the first. |
| `AddrManLoad.PrunePlaced` | src/addrman.h:453-463 | Pruning the entries without references leaves only entries that are in a table, with the tables, reference counts and counters agreeing. |
| `AddrManLoad.BucketedLoading` | src/addrman.h:442-449 | An index from a bucket list, valid or not, keeps the loading invariant. |
| `AddrManFile.Serialize` | src/addrman.h:316-363 | The writing loops produce the specified file. |
| `AddrManFile.WriteNew` | src/addrman.h:329-339 | The first loop writes the new entries in order and numbers them; its assert holds. |
| `AddrManFile.WriteTried` | src/addrman.h:340-348 | The second loop writes the tried entries in order; its assert holds. |
| `AddrManFile.WriteBucket` | src/addrman.h:349-362 | The loops over a bucket write the numbers of its entries. |
| `AddrManFile.Unserialize` | src/addrman.h:366-469 | For any counts, negative ones included, the reading loops succeed exactly when the file is not refused and has all the entries and lists it announces, and then compute the specified state. |
| `AddrManFile.ReadNew` | src/addrman.h:395-411 | One iteration of the loop over the new entries. |
| `AddrManFile.ReadTried` | src/addrman.h:416-432 | One iteration of the loop over the tried entries; an entry whose slot is taken is lost. |
| `AddrManFile.ReadNewEntries` | src/addrman.h:394-412 | The loop over the new entries computes the specified state; the counter of ids is set after it. |
| `AddrManFile.ReadTriedEntries` | src/addrman.h:414-433 | The loop over the tried entries counts the lost ones and takes them off the announced number. |
| `AddrManFile.ReadIndex` | src/addrman.h:440-449 | One index of a bucket list. |
| `AddrManFile.ReadBuckets` | src/addrman.h:435-451 | The loops over the bucket lists ignore every index that names no new entry. |
| `AddrManFile.PruneEntries` | src/addrman.h:453-463 | The pruning loop over the changing map computes the specified state. |
| `CoinsStack.RunRefines` | src/coins.cpp:40-217 | For a stack of caches of any depth and any legal run of get, add, spend, uncache and flush, every level shows at every time what one plain map would. |
| `CoinsStack.StepRefines` | src/coins.cpp:40-217 | Each operation does to the plain maps exactly what it says and keeps the flags meaningful. |
| `CoinsStack.FlushToParentOk` | src/coins.cpp:203-208 | Flushing makes the parent's view this one's, changes no other level, and the FRESH logic_error is unreachable. |
| `CoinsStack.GetOk` | src/coins.cpp:40-64 | Reading changes no view at any level although it fills caches, and finds what the top view has. |
| `CoinsStack.SpendAnswer` | src/coins.cpp:98-112 | SpendCoin's answer tells whether an unspent coin was there exactly when the top cache does not hold the coin as already spent. |
| `Coins.MergeOk` | src/coins.cpp:145-201 | Writing a child's batch into its parent gives one layer that shows the same and whose FRESH flags are still true of the grandparent. |
| `Coins.AddLayerOk` | src/coins.cpp:66-85 | Adding a coin that is not visible, or may be overwritten, keeps the flags meaningful and does not throw. |
| `Coins.SpendLayerOk` | src/coins.cpp:98-112 | Spending keeps the flags meaningful, also when a FRESH entry is erased. |
| `Coins.UncacheLayerOk` | src/coins.cpp:210-217 | Dropping an unmodified entry changes nothing that is shown. |
| `CoinsCaches.MergeBatch` | src/coins.cpp:145-201 | The erasing loop of BatchWrite merges the batch, and throws exactly when a FRESH entry meets an unspent one. |
| `CoinsCaches.CoinsCache.FetchCoin` | src/coins.cpp:40-55 | The recursive fetch fills the caches below as specified. |
| `CoinsCaches.CoinsCache.GetCoin` | src/coins.cpp:57-64 | The coin, if the view has it unspent. |
| `CoinsCaches.CoinsCache.HaveCoin` | src/coins.cpp:125-128 | Whether the view has the coin unspent. |
| `CoinsCaches.CoinsCache.HaveCoinInCache` | src/coins.cpp:130-133 | A cache alone is right about the coins it holds: the answer is yes exactly for those of them that the view has unspent. |
| `CoinsCaches.CoinsCache.AddCoin` | src/coins.cpp:66-85 | The in-place operation computes the specified layer, and when it throws. |
| `CoinsCaches.CoinsCache.SpendCoin` | src/coins.cpp:98-112 | The in-place operation computes the specified layers, answer and moved coin. |
| `CoinsCaches.CoinsCache.Uncache` | src/coins.cpp:210-217 | The in-place operation computes the specified layer. |
| `CoinsCaches.CoinsCache.BatchWrite` | src/coins.cpp:145-201 | The in-place merge of a child's batch. |
| `CoinsCaches.CoinsCache.Flush` | src/coins.cpp:203-208 | Flushing never throws on a valid stack and computes the specified layers and database. |
| `CoinsCaches.CoinsDb.BatchWrite` | src/txdb.cpp:83-142 | The database receives the dirty entries, spent ones as erasures. |
| `CheckQueue.EveryInterleaving` | src/checkqueue.h:66-158 | In every interleaving of the master and any number of workers, nTodo is the queue plus all checks taken but not reported, and every Wait answered true exactly when all checks added since the previous one hold. |
| `CheckQueue.StepInv` | src/checkqueue.h:66-158 | Every atomic step of every thread keeps the invariant. |
| `CheckQueue.WaitReturns` | src/checkqueue.h:88-97 | A Wait ends only when nothing is queued or held, and answers for exactly the checks added since the one before. |
| `CheckQueue.BlockedMaster` | src/checkqueue.h:77-101 | A master blocked without a pending signal is waiting for a worker that holds checks and has a step to make: no wake-up is lost. |
| `CheckQueue.BatchSize` | src/checkqueue.h:107 | A batch has at least one check and no more than are queued. |
| `CheckQueue.TakeInv` | src/checkqueue.h:102-117 | Taking a batch keeps the invariant. |
| `CheckQueue.ReportInv` | src/checkqueue.h:76-86 | Reporting a batch keeps the counts exact and the answer truthful. |
| `CheckQueue.ReturnInv` | src/checkqueue.h:89-97 | When the master returns nothing is outstanding and the answer is right. |
| `Cuckoo.EveryRun` | src/cuckoocache.h:243-477 | In every run that never inserts the default element, each stored element is in exactly one slot, one of its eight, the epoch bound holds, and the elements to keep never exceed twice the bound. |
| `Cuckoo.InsertInv` | src/cuckoocache.h:392-440 | Beyond what the change of epoch releases, one insert gives up at most one element that must be kept. |
| `Cuckoo.PlaceInv` | src/cuckoocache.h:406-439 | The kicking loop keeps every element in one of its own slots and loses at most the one left in hand. |
| `Cuckoo.ContainsExact` | src/cuckoocache.h:467-477 | For any element but the default one, looking at eight slots decides membership in the whole table. |
| `Cuckoo.ContainsInv` | src/cuckoocache.h:467-477 | A lookup of any element, the default one included, moves nothing and keeps the invariant. |
| `Cuckoo.InsertEpochs` | src/cuckoocache.h:289-321 | Insertion keeps live entries of the current epoch plus the heuristic counter within the bound. |
| `Cuckoo.PlaceCounts` | src/cuckoocache.h:406-439 | The kicking loop adds at most one live entry, to the epoch of the inserted element. |
| `Cuckoo.AgedCounts` | src/cuckoocache.h:305-311 | A new epoch turns the current entries into the older ones and releases the older ones. |
| `Cuckoo.SetupInv` | src/cuckoocache.h:340-353 | After setup the invariant holds. |
| `Cuckoo.Scale` | src/cuckoocache.h:243-253 | The high half of the 64-bit product maps a hash into the table. |
| `CuckooCache.BitPackedFlags.BitSet` | src/cuckoocache.h:92-95 | Setting a packed bit sets one flag and no other. |
| `CuckooCache.BitPackedFlags.constructor` | src/cuckoocache.h:61-68 | All flags start set; the rounded-up number of bytes holds them exactly when it does not wrap. |
| `CuckooCache.BitPackedFlags.BitUnset` | src/cuckoocache.h:103-106 | Clearing a packed bit clears one flag and no other. |
| `CuckooCache.Cache.constructor` | src/cuckoocache.h:340-353 | The cache after setup; with 32-bit arithmetic the flags cover the table exactly when the size plus seven does not wrap. |
| `CuckooCache.Cache.EpochCheck` | src/cuckoocache.h:289-321 | The counting and ageing loops compute the specified state. |
| `CuckooCache.Cache.CountRecent` | src/cuckoocache.h:295-300 | The counting loop counts the live entries of the current epoch. |
| `CuckooCache.Cache.Age` | src/cuckoocache.h:305-310 | The ageing loop releases the older entries and ages the current ones, in place. |
| `CuckooCache.Cache.Insert` | src/cuckoocache.h:392-440 | The in-place insertion computes the specified state. |
| `CuckooCache.Cache.PlaceElement` | src/cuckoocache.h:406-439 | The kicking loop computes the specified state. |
| `CuckooCache.Cache.Contains` | src/cuckoocache.h:467-477 | The look-up computes the specified answer and marks. |
| `Merkle.ProofsAreSound` | src/merkleblock.cpp:78-163 | With an injective node hash, bits and hashes that yield the true root, which is not the null hash, for the true transaction count yield only true pairs of transaction and index. |
| `Merkle.ExtractSound` | src/merkleblock.cpp:78-114 | The same for every subtree, whatever the data. |
| `Merkle.RoundTrip` | src/merkleblock.h:87-105 | Build, pack into bytes, unpack with padding, extract: the root and exactly the matched transactions and indexes come back, in order. |
| `Merkle.ExtractBuilt` | src/merkleblock.cpp:60-114 | Extraction consumes exactly what was built for a subtree and recovers its hash and matches. |
| `Merkle.TreeSizes` | src/merkleblock.h:34-40 | The documented bounds on the number of hashes hold. |
| `Merkle.HashesFewMatches` | src/merkleblock.h:34-40 | A proof has at most one hash and one more per level of each match. |
| `Merkle.BitsBound` | src/merkleblock.h:47 | The documented bound of 2N-1 bits holds exactly when no node with only a left child is above a match. |
| `Merkle.FiveTransactions` | src/merkleblock.h:47 | Five transactions with the last matched need five bits for two hashes. |
| `Merkle.WidthIsShift` | src/merkleblock.h:66-68 | The width of a level by halving is the formula with shifts. |
| `Merkle.AnyMatch` | src/merkleblock.cpp:61-64 | The loop over the leaves below a node decides whether a match is below it. |
| `Merkle.Covers` | src/merkleblock.cpp:60-76 | A subtree covers a contiguous range of leaves. |
| `MerkleTree.PartialMerkleTree.FromBlock` | src/merkleblock.cpp:116-128 | The tree built from a block. |
| `MerkleTree.PartialMerkleTree.FromStream` | src/merkleblock.h:92-98 | The tree read from a stream. |
| `MerkleTree.PartialMerkleTree.PackBits` | src/merkleblock.h:99-104 | The bits as bytes, least significant first. |
| `MerkleTree.PartialMerkleTree.CalcHeight` | src/merkleblock.cpp:121-124 | The loop that finds the height of the tree. |
| `MerkleTree.PartialMerkleTree.IsParentOfMatch` | src/merkleblock.cpp:61-64 | The loop over the leaves below a node. |
| `MerkleTree.PartialMerkleTree.TraverseAndBuild` | src/merkleblock.cpp:60-76 | The recursion that appends bits and hashes. |
| `MerkleTree.PartialMerkleTree.TraverseAndExtract` | src/merkleblock.cpp:78-114 | The recursion that consumes bits and hashes. |
| `MerkleTree.PartialMerkleTree.ExtractMatches` | src/merkleblock.cpp:132-163 | The answer; the caller's index list is extended, not replaced. |
| `Miner.BlockAssembler.AddPackageTxs` | src/miner.cpp:449-577 | The selection ends; the block stays free of repetitions, closed under ancestors with parents first, suitable and within the weight and sigop limits; and it ends only when nothing left out has room, a package pays too little, or the block is nearly full. |
| `Miner.BlockAssembler.ConsiderNext` | src/miner.cpp:470-576 | One round includes a package or leaves one candidate less, and accounts for every entry that is no longer a candidate. |
| `Miner.BlockAssembler.Evaluate` | src/miner.cpp:509-576 | A candidate is included, has no room, or ends the search for the stated reasons. |
| `Miner.BlockAssembler.NextCandidate` | src/miner.cpp:479-507 | No cached entry and no remaining entry of mapTx has a better score than the candidate. |
| `Miner.BlockAssembler.Include` | src/miner.cpp:559-575 | Including an accepted package keeps the block minable and the cached totals right. |
| `Miner.BlockAssembler.Grow` | src/miner.cpp:562-570 | The block after an accepted package is minable. |
| `Miner.BlockAssembler.Reject` | src/miner.cpp:523-557 | A failed candidate leaves mapModifiedTx and is remembered. |
| `Miner.BlockAssembler.UpdatePackagesForAdded` | src/miner.cpp:386-411 | After the update every cached total accounts for the whole block. |
| `Miner.BlockAssembler.UpdateDescendants` | src/miner.cpp:391-408 | One included transaction is taken out of the totals of its descendants. |
| `Miner.BlockAssembler.SortForBlock` | src/miner.cpp:428-437 | The sorted package is the package, by ancestor count and hash. |
| `Miner.BlockAssembler.AddToBlock` | src/miner.cpp:367-384 | The counters describe the block after the addition. |
| `Miner.BlockAssembler.TestPackage` | src/miner.cpp:342-350 | Whether a package fits by its totals. |
| `Miner.BlockAssembler.TestPackageTransactions` | src/miner.cpp:356-365 | Whether all transactions are final and allowed. |
| `Miner.BlockAssembler.OnlyUnconfirmed` | src/miner.cpp:329-340 | The erasing loop removes what is in the block. |
| `Miner.BlockAssembler.SkipMapTxEntry` | src/miner.cpp:422-426 | A skipped entry is in the block, cached, or without room; of one that is not skipped no ancestor is in the block, so its stored totals are those of its package. |
| `Miner.BlockAssembler.ResetBlock` | src/miner.cpp:95-107 | An empty block is minable. |
| `Miner.BlockAssembler.constructor` | src/miner.cpp:70-75 | The weight limit is clamped. |
| `Miner.PackageFits` | src/miner.cpp:342-350 | A package that passes by cached totals, counted in virtual size, keeps the block within the weight limit. |
| `Miner.Grown` | src/miner.cpp:562-570 | A sorted package behind a good block gives a good block. |
| `MinerPackages.CandidateTotalOk` | src/miner.cpp:509-516 | The totals by which a candidate is judged never underestimate its ancestors that are not in the block. |
| `MinerPackages.DeductedTracked` | src/miner.cpp:386-411 | Taking one transaction out of its descendants' totals keeps all totals covering, also re-created stale ones. |
| `MinerPackages.PackageOrdered` | src/miner.cpp:428-437 | Sorting by ancestor count puts every parent before its child. |
| `MinerPackages.PackageClosed` | src/miner.cpp:542-548 | A block with a whole package is closed under ancestors. |
| `MinerPool.CalculateMemPoolAncestors` | src/txmempool.cpp:152-212 | The work list over parent links finds exactly the ancestors. |
| `MinerPool.CalculateDescendants` | src/txmempool.cpp:445-466 | The work list over child links finds exactly the descendants. |
| `MinerPool.SizeCoversWeight` | src/txmempool.cpp:54-57 | Four times the virtual size covers the weight. |
| `MinerScore.RatesOrder` | src/txmempool.h:276-314 | Comparing fee rates by cross multiplication is a strict total order. |
| `MinerScore.First` | src/txmempool.h:276-314 | The first entry of the score index. |
| `Bloom.RecentKeysPresent` | src/bloom.h:113-114 | Each of the last two full generations and the current one is reported present, whatever came before and between. |
| `Bloom.OldestKept` | src/bloom.cpp:256-285 | How many of the last keys those are. |
| `Bloom.StoredIsWindow` | src/bloom.cpp:256-305 | A cell holds a label exactly when one of the kept keys touches it. |
| `Bloom.StoredStep` | src/bloom.cpp:256-285 | Wiping the reused label and stamping is what one more key does to a cell. |
| `Bloom.FastMod` | src/bloom.cpp:252-254 | The high half of a product maps a hash into the range. |
| `Bloom.RollingBloomFilter.constructor` | src/bloom.cpp:216-241 | Two generations hold at least the number of elements asked for; the packed words cover the cells exactly when the 32-bit sizes do not wrap. |
| `Bloom.RollingBloomFilter.Reset` | src/bloom.cpp:313-321 | Resetting forgets all keys. |
| `Bloom.RollingBloomFilter.Wipe` | src/bloom.cpp:264-272 | The bit-sliced masks clear exactly the cells with one label. |
| `Bloom.RollingBloomFilter.Put` | src/bloom.cpp:277-283 | The two shifted bits stamp exactly one cell. |
| `Bloom.RollingBloomFilter.Roll` | src/bloom.cpp:258-273 | A full generation gives way to the next label. |
| `Bloom.RollingBloomFilter.Insert` | src/bloom.cpp:256-285 | The packed words represent the keys with the new one. |
| `Bloom.RollingBloomFilter.Contains` | src/bloom.cpp:293-305 | The answer is membership in the plain Bloom filter over the kept keys, so no kept key is missed. |
| `Chain.BlockIndex.GetAncestor` | src/chain.cpp:83-108 | Walking skip and parent pointers finds exactly the block that parent walking finds. |
| `Chain.BlockIndex.BuildSkip` | src/chain.cpp:115-119 | The skip pointer leads to an ancestor further back, and the skip list stays right. |
| `Chain.GetSkipHeight` | src/chain.cpp:73-81 | The skip height is below the height. |
| `Chain.InvertLowestOne` | src/chain.cpp:70 | Clearing the lowest one bit lowers a positive number. |
| `Chain.AncestorOfAncestor` | src/chain.cpp:83-108 | An ancestor's ancestor is the block's own. |
| `ActiveChain.LastCommonAncestor` | src/chain.cpp:155-170 | The result is the highest common ancestor. |
| `ActiveChain.CommonBelow` | src/chain.cpp:155-170 | Blocks whose ancestors differ at a height differ at every height above. |
| `ActiveChain.CChain.SetTip` | src/chain.cpp:11-21 | After any SetTip the chain holds the tip's ancestor at every height, despite the early stop. |
| `ActiveChain.CChain.FindFork` | src/chain.cpp:51-60 | The fork is the highest common ancestor of the block and the tip. |
| `ActiveChain.CChain.GetLocator` | src/chain.cpp:23-49 | A locator lists the hashes of the ancestors at the locator heights. |
| `ActiveChain.CChain.LocatorFrom` | src/chain.cpp:30-46 | The loop that builds it. |
| `ActiveChain.CChain.GoBack` | src/chain.cpp:37-43 | Going back through the chain or the skip list is going back by parents. |
| `ActiveChain.CChain.Next` | src/chain.h:469-474 | The successor has the block as its parent. |
| `ActiveChain.CChain.ContainsAncestors` | src/chain.h:464-466 | Membership by height and pointer is being an ancestor of the tip. |
| `ActiveChain.LocatorFalls` | src/chain.cpp:30-46 | Locator heights fall strictly and end at genesis. |
| `ActiveChain.LocatorShort` | src/chain.cpp:30-46 | Above genesis a locator has at most 12 + floor(log2 H) entries. |
| `Arith256.BaseUint.constructor` | src/arith_uint256.h:33-39 | A number starts at zero. |
| `Arith256.BaseUint.Assign` | src/arith_uint256.h:87-94 | Assignment of 64 bits. |
| `Arith256.BaseUint.Complement` | src/arith_uint256.h:68-74 | Flipping all bits subtracts from the largest number. |
| `Arith256.BaseUint.Increment` | src/arith_uint256.h:172-179 | Adding one modulo the width, through a run of full limbs. |
| `Arith256.BaseUint.Add` | src/arith_uint256.h:134-144 | The carry loop adds modulo the width. |
| `Arith256.BaseUint.Negate` | src/arith_uint256.h:76-83 | Complement and increment negate modulo the width. |
| `Arith256.BaseUint.Subtract` | src/arith_uint256.h:146-150 | Adding the negation subtracts modulo the width. |
| `Arith256.BaseUint.ShiftLeft` | src/arith_uint256.cpp:23-38 | The limb loop multiplies by a power of two modulo the width. |
| `Arith256.BaseUint.ShiftRight` | src/arith_uint256.cpp:40-55 | The limb loop divides by a power of two. |
| `Arith256.BaseUint.MultiplySmall` | src/arith_uint256.cpp:57-67 | The carry loop multiplies by 32 bits modulo the width. |
| `Arith256.BaseUint.AddRow` | src/arith_uint256.cpp:73-80 | One row of a product; no partial sum exceeds 64 bits. |
| `Arith256.BaseUint.Multiply` | src/arith_uint256.cpp:69-83 | The double loop multiplies modulo the width. |
| `Arith256.BaseUint.Divide` | src/arith_uint256.cpp:85-109 | Shift-and-subtract is floor division and leaves the true remainder; it throws exactly on zero, with the number cleared. |
| `Arith256.BaseUint.LongDivision` | src/arith_uint256.cpp:99-106 | The loop of the division. |
| `Arith256.BaseUint.QuotientBit` | src/arith_uint256.cpp:100-103 | One quotient bit: subtract the shifted divisor if it goes and or in a bit that was clear. |
| `Arith256.BaseUint.CompareTo` | src/arith_uint256.cpp:111-121 | Limb comparison is comparison of values. |
| `Arith256.BaseUint.Bits` | src/arith_uint256.cpp:173-186 | The number of bits of the value. |
| `LimbShifts.ShiftLeftValue` | src/arith_uint256.cpp:23-38 | What shifting limbs left does to the value. |
| `LimbShifts.ShiftRightValue` | src/arith_uint256.cpp:40-55 | What shifting limbs right does to the value. |
| `Compact.OverflowExact` | src/arith_uint256.cpp:222-225 | The overflow flag is set exactly when the number does not fit in 256 bits, and otherwise one more does not wrap. |
| `Compact.SetCompact` | src/arith_uint256.cpp:209-227 | Value and flags of a compact number. |
| `Compact.GetCompact` | src/arith_uint256.cpp:229-250 | Reading the result back rounds the number down and keeps its leading 16 bits or more. |
| `Compact.Encoded` | src/arith_uint256.cpp:229-250 | The same for the packed word. |
| `Compact.ProofFormula` | src/chain.cpp:129-133 | (2^256 - 1 - t) / (t + 1) + 1 is 2^256 / (t + 1). |
| `Compact.GetBlockProof` | src/chain.cpp:121-134 | The work of a block is floor(2^256 / (target + 1)), and zero for a negative, overflowing or zero target. |
| `Compact.WorkOf` | src/chain.cpp:129-133 | The 256-bit computation of it. |
| `Base58Text.DecodeEncode` | src/base58.cpp:34-121 | Decoding an encoded byte string gives it back, leading zeros included. |
| `Base58Text.EncodeDecode` | src/base58.cpp:34-121 | Encoding what was decoded from text without spaces gives the text back. |
| `Base58Text.EncodeAccepted` | src/base58.cpp:34-121 | For every accepted string without spaces at its ends, encoding what was decoded gives the string back. |
| `Base58Text.AcceptedText` | src/base58.cpp:34-81 | Spaces around a word of digits make no difference. |
| `Base58Text.AcceptedParts` | src/base58.cpp:34-81 | Nothing else is accepted: an accepted string is a word of digits with spaces around it. |
| `Base58.EncoderRoom` | src/base58.cpp:92-106 | The encoder's buffer of 138/100 holds any number of that many bytes: its assert never fails. |
| `Base58.DecoderRoom` | src/base58.cpp:46-62 | The decoder's buffer of 733/1000 holds any number of that many digits: its assert never fails. |
| `Base58.DigitsFit` | src/base58.cpp:47-62 | From q digits of one base fitting in p of another to any length with at least that ratio. |
| `Base58Text.MulAdd` | src/base58.cpp:56-63 | The carry loop multiplies and adds in place, touching only digits in use. |
| `Base58Text.Propagate` | src/base58.cpp:57-61 | The inner loop. |
| `Base58Text.BytesToDigits` | src/base58.cpp:92-113 | The double loop converts bytes to base 58. |
| `Base58Text.DigitsToBytes` | src/base58.cpp:46-74 | The double loop converts digits to bytes, or fails at an invalid character. |
| `Base58Text.EncodeBase58` | src/base58.cpp:83-121 | The encoder computes the specified text. |
| `Base58Text.DecodeBase58` | src/base58.cpp:34-81 | The decoder computes the specified bytes or refuses. |
| `Wire.StreamDelivered` | src/net.cpp:741-791 | However a prefix of the stream is cut into pieces, the receiver has completed exactly the messages whose frames arrived, in order and whole; the whole stream delivers all. |
| `Wire.PrefixReceived` | src/net.cpp:741-791 | The same for any part of the stream from any earlier state. |
| `Wire.FeedPieces` | src/net.cpp:741-791 | The cut makes no difference. |
| `Wire.FrameReceived` | src/net.cpp:741-791 | A frame completes exactly its message. |
| `Wire.PartialFrame` | src/net.cpp:741-791 | Inside a frame nothing completes and nothing fails. |
| `Wire.OversizedFrame` | src/net.cpp:767-770 | An oversized message makes the receiver give up at its header, whatever follows. |
| `Wire.ParseSerialize` | src/protocol.h:28-60 | A serialized header parses back to itself. |
| `NetNode.NetMessage.ReadHeader` | src/net.cpp:820-849 | Copies header bytes and parses a full header. |
| `NetNode.NetMessage.ReadData` | src/net.cpp:851-866 | Copies data bytes into the growing buffer. |
| `NetNode.NodeReceiver.Absorb` | src/net.cpp:757-787 | Taking a block of bytes is taking them one by one. |
| `NetNode.NodeReceiver.TakeSome` | src/net.cpp:748-787 | One round of the receive loop. |
| `NetNode.NodeReceiver.ReceiveMsgBytes` | src/net.cpp:741-791 | The receive loop is the byte-wise receiver, its failures included. |
| `NetNode.Enqueued` | src/net.cpp:2824-2859 | Queueing a message keeps sent and queued bytes together the frames of the pushed messages. |
| `NetNode.Dequeued` | src/net.cpp:885-935 | So does handing any number of bytes to the socket. |
| `NetNode.NodeSender.SocketSendData` | src/net.cpp:885-935 | With any partial sends the asserts hold, nSendSize is the queued total, fPauseSend is exact, whole buffers leave the queue in order, and sending stops only with an empty queue, a closed socket, or at the call of send that took less than offered, whose bytes are accounted for. |
| `NetNode.NodeSender.Handed` | src/net.cpp:900-912 | The accounting for one successful send. |
| `NetNode.NodeSender.PushMessage` | src/net.cpp:2824-2859 | A pushed message is queued whole behind what was queued, and when nothing was, it is sent until the socket stops it. |
| `NetNode.NodeSender.SentIsPrefix` | src/net.cpp:885-935 | The bytes on the wire are always the beginning of the frames of the pushed messages. |
| `NetNode.NodeSender.Delivered` | src/net.cpp:741-935 | From sender to receiver: however the socket takes the bytes and however they are cut up on arrival, the receiver has completed the first of the pushed messages, whole and in order, and all once the queue is empty and everything arrived. |
| `Bech32.DecodeEncode` | src/bech32.cpp:152-196 | Decoding an encoded string gives back encoding, prefix and data, within 90 characters. |
| `Bech32.EncodeDecode` | src/bech32.cpp:152-196 | An accepted string in lower case is the encoding of what was decoded. |
| `Bech32.ChecksumVerifies` | src/bech32.cpp:124-144 | The checksum of an encoding verifies as that encoding and no other. |
| `PolyMod.PolyLinear` | src/bech32.cpp:37-94 | PolyMod is linear over exclusive or. |
| `PolyMod.StepInjective` | src/bech32.cpp:81-91 | One PolyMod step is injective in the 30-bit remainder. |
| `PolyMod.SubstitutionDetected` | src/bech32.cpp:37-94 | Sequences that differ in exactly one symbol have different remainders. |
| `PolyMod.BurstDetected` | src/bech32.cpp:37-94 | So do sequences that differ within six symbols in a row. |
| `PolyMod.ChecksumWorks` | src/bech32.cpp:133-144 | Appending the checksum makes the remainder the target. |
| `PolyMod.ChecksumUnique` | src/bech32.cpp:124-144 | No other six symbols do. |
| `Bech32Codec.TakeSymbol` | src/bech32.cpp:81-91 | One step of the remainder with shifts, masks and constants. |
| `Bech32Codec.ComputePolyMod` | src/bech32.cpp:37-94 | The loop over the symbols. |
| `Bech32Codec.ExpandPrefix` | src/bech32.cpp:103-115 | The expansion of the prefix, in place. |
| `Bech32Codec.CreateChecksum` | src/bech32.cpp:133-144 | The six checksum symbols. |
| `Bech32Codec.EncodeString` | src/bech32.cpp:152-161 | The encoder computes the specified string. |
| `Bech32Codec.DecodeString` | src/bech32.cpp:164-196 | The decoder computes the specified result or refuses. |
| `Bech32Codec.FindSeparator` | src/bech32.cpp:173 | The position of the last separator. |
| `Bech32Codec.ReadValues` | src/bech32.cpp:177-186 | The values of the data part, if every character has one. |
| `Bech32Codec.LowerString` | src/bech32.cpp:187-190 | The prefix in lower case. |
| `Bech32Codec.CheckCharacters` | src/bech32.cpp:165-172 | Characters outside the range and mixed case are refused. |

## Left out

Contracts that say less than the code does:

- AddrManClass.AddrMan.ResolveCollisions: one clock reading serves a whole call, where the code reads the clock at each comparison; so it is in AddrManClass.AddrMan.Add and AddrManClass.AddrMan.GetAddr.
- AddrManRuns.RunsAreSafe: identifiers and counters are unbounded integers, so the run in which `nIdCount` overflows is not modelled; Select_ and GetChance, which change nothing and draw from floating point chances, are not among the operations.
- AddrManFile.Unserialize: the stream ends, if it does, after a whole entry or bucket list, and not within the header; what is left in the manager after a failure is not stated.
- AddrManFile.Serialize: the bytes of an entry are not modelled, only the order and the numbers in which entries are written.
- CoinsCaches.CoinsDb.BatchWrite: the head-block markers and the division into partial batches, which matter only after a crash, are not modelled.
- CoinsStack.RunRefines: the best block hash and the accounting of memory are not part of the views.
- CheckQueue.EveryInterleaving: a step is what a thread does while it holds the mutex, or one run of its checks; the boost mutex and condition variables are taken to work.
- Cuckoo.EveryRun: flags are read and written one at a time; the memory ordering of the atomic flags is not modelled.
- CuckooCache.Cache.constructor: the number of megabytes is turned into elements by the caller, and the depth limit, a floating point logarithm in the code, is a parameter.
- Bloom.RollingBloomFilter.constructor: the numbers of hash functions and of bits, which the code computes with logarithms in floating point, are parameters.
- MinerPool.CalculateMemPoolAncestors: called without limits, as block assembly does; the limits and their error texts are not modelled.
- MinerScore.RatesOrder: products of fees and sizes are exact, where the code multiplies doubles and may round.
- Miner.BlockAssembler.AddPackageTxs: sizes, fees and sigop costs are unbounded integers, and `fIncludeWitness` is set by the caller.
- Chain.BlockIndex.GetAncestor: heights do not overflow.
- ActiveChain.CChain.GetLocator: neither does the doubling step.
- NetNode.NodeSender.SocketSendData: the socket is open or closed for a whole call; a hard socket error is reported by the code, not acted on in the model.
- NetNode.NodeReceiver.ReceiveMsgBytes: the statistics by command and the time stamps of messages are not kept, and the checksum, which is compared later, is carried along.
- Merkle.ProofsAreSound: the node hash is taken to be injective, which a hash function is only as far as anyone can tell.

Parts of the repository without a model, since they would add easy members or need what cannot be seen here:

- script evaluation, signatures, transaction and block validation, and proof of stake;
- the wallet, the graphical interface, RPC, ZeroMQ and the command line;
- storage: LevelDB, block and undo files, pruning;
- peer selection, eviction and the handling of each message;
- `CChain::FindEarliestAtLeast`, a binary search by time;
- the rest of `CTxMemPool`: removal, expiry and fee estimation.
