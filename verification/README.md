# Verified models of the CodexaCoin node and gateway

This project models the stateful core of the CodexaCoin node, and the ledger of its staking gateway, in Dafny 4.11, and
proves what these parts promise over all inputs, all runs and all interleavings. `dafny verify dfyconfig.toml` checks
all of it.

Where the code updates things in place the model does too. A component then has two layers: functions on values, about
which the invariants are proved, and a class or a method with loops that is proved to do what those functions say.

| component | files | what is proved |
|---|---|---|
| address manager | `AddrManSpec`, `AddrManSteps`, `AddrManOps`, `AddrManRuns`, `AddrManEffects`, `AddrManRoutable`, `AddrMan`, `AddrManCheck`, `AddrManFile`, `AddrManReload`, `AddrManStore`, `AddrManPrune`, `AddrManLoad` | six redundant structures stay in step over every run, so the built-in check returns 0; what each operation does to entries and tables; saving and reloading loses nothing; any file that is accepted gives a sound state |
| coin caches | `CoinsSpec`, `CoinsTower`, `CoinsUsage`, `CoinsCache` | a stack of write-back caches of any depth is one flat map per level, with its memory accounted for; an interrupted write can be completed |
| check queue | `CheckQueue`, `CheckQueueRuns`, `CheckQueueAnswers` | every interleaving gives the right verdict, runs nothing twice, loses no wake-up and ends |
| 256-bit arithmetic | `Limbs`, `Uint256`, `Compact` | limb algorithms are exact, targets survive their compact form, block work is the floor it should be |
| block index | `SkipList`, `Chain` | skip links and the chain vector agree with following parents; the number of steps to an ancestor is bounded by the square of the height's length in bits |
| codecs | `Radix`, `Base58`, `Bech32`, `Field`, `Bch`, `Bech32Codec`, `Bech32Distance`, `Bech32Vectors` | buffers suffice, round trips hold both ways, up to three errors within 1023 places are detected |
| cuckoo cache | `Cuckoo`, `CuckooEpochs`, `CuckooCache` | elements stay at their places, an insertion loses at most one, an epoch protects what is new, and two epochs free what is old |
| compact blocks | `CompactBlocks`, `BlockLayout`, `BlockSearch`, `PartialBlock`, `Difference`, `BlockRelay` | a block announced in compact form arrives as it was |
| gateway ledger | `Ledger`, `LedgerRuns`, `LedgerCredits`, `LedgerRewards`, `Gateway` | no overpayment over any run, no credit twice and none missed, rewards are exactly what coinstakes gained, watcher passes are idempotent |
| shared | `Options`, `Nonlinear` | optional values, arithmetic facts |

Hash functions, the clock, random draws, the node's answers and the outcome of sending money are parameters, so every
statement holds for all of them. Bucket counts and bucket sizes of the address manager are parameters too.

## Findings

- The check of the address manager accepts a state in which a network with entries has no counter at all
  (`MissedCounter`). `CheckedCounters` says exactly when an accepted state has exact counters. No run and
  no accepted file leads to such a state.
- In the address manager the branch for a collision that is gone, and the lookup of an empty tried slot, are never
  reached (`WaitingSlotOccupied`).
- `Flush` hands down the best block of a cache even if it was never set, and so can make the parent forget its own
  (`FlushForgetsBest`); `FlushBest` says exactly when the best block survives.
- A comment in `cuckoocache.h` (lines 427-428) says that the first displacement uses the first place of an element. The
  code uses the second, and so does the model (`FirstDisplaced`).
- A withdrawal from the staking pool for less than is due closes all active deposits, so the rest is forfeited
  (`ForfeitsRest`); `WithdrawSettles` says exactly when nothing is. `staking.py` notes that partial withdrawals are
  not supported.
- `DecodeBase58` checks the length limit only after reading a character, so with a negative limit it still accepts a
  string of spaces (`NegativeLimit`). `WithinLimit` says exactly when an accepted result respects the limit.
- `AddCoin` takes the memory of the coin in the way off its account before it refuses to overwrite it, so a refusal
  leaves the account wrong (`RefusalMiscounts`). The contract of `AddCoin` says exactly when it stays right.
- The step in `LocatorEntries` is an `int` and reaches 2^31 at height 2^30 + 10 (`StepOverflows`); `StepFits` says
  exactly below which height it fits. The model's step is not bounded.
- The epoch of the cuckoo cache is computed in 32 bits, so from 95443718 elements on it is not the 45 percent that are
  documented (`EpochWraps`); `EpochShare` says exactly when it is. What is proved about epochs holds for any size.

## Model

| member | source | states |
|---|---|---|
| `AddrManSteps.CreateKeeps` | codexacoin-core/src/addrman.cpp:414-428 | creating an entry keeps the six structures in step, with the new entry as the only one not placed yet |
| `AddrManSteps.SwapRandomKeeps` | codexacoin-core/src/addrman.cpp:430-452 | swapping two places of `vRandom` keeps it inverse to `nRandomPos` |
| `AddrManSteps.DeleteKeeps` | codexacoin-core/src/addrman.cpp:454-469 | deleting an entry without references keeps the invariant and every counter exact |
| `AddrManOps.ClearNewKeeps` | codexacoin-core/src/addrman.cpp:471-487 | clearing a new slot keeps the invariant: a last reference deletes the entry, any other lowers its count |
| `AddrManOps.MakeTriedKeeps` | codexacoin-core/src/addrman.cpp:489-546 | moving an entry to the tried table removes it from exactly its new slots, sends an evicted entry back to new, and keeps the invariant |
| `AddrManOps.MakeTriedTables` | codexacoin-core/src/addrman.cpp:489-546 | the tables afterwards: the tried slot of the entry holds it, no other tried slot changes, its new slots are free and the evicted entry has one |
| `AddrManOps.AddSingleKeeps` | codexacoin-core/src/addrman.cpp:548-622 | adding one gossiped address keeps the invariant in every branch: refused, refreshed, referenced again, inserted, or created and dropped |
| `AddrManEffects.AddUnknown` | codexacoin-core/src/addrman.cpp:548-622 | a routable address not known yet is added exactly when the slot its source assigns is free, holds a terrible entry or one with another reference; it then has an entry with that source, its services, its time less the penalty (none for a self-announcement) and one reference, in that slot; the entry displaced loses one reference and is gone with its last; refused, entries and tables are as before |
| `AddrManEffects.AddKnown` | codexacoin-core/src/addrman.cpp:563-622 | what becomes of the time and services of a known address, and exactly when it gains one more slot: the news is still later, the entry is new with fewer than eight slots, one draw out of two to that number allows it, and the slot is free or holds another, terrible entry |
| `AddrManEffects.AddUnroutable` | codexacoin-core/src/addrman.cpp:552-553 | an address that is not routable changes nothing |
| `AddrManRuns.GoodKeeps` | codexacoin-core/src/addrman.cpp:624-676 | marking an address good keeps the invariant, moved, held back for a collision, or neither |
| `AddrManRuns.GoodCollisions` | codexacoin-core/src/addrman.cpp:658-668 | every id that waits and still exists names an occupied tried slot, and at most ten wait |
| `AddrManEffects.GoodMoves` | codexacoin-core/src/addrman.cpp:624-676 | what a success changes: times and failures of the entry; it moves to its tried slot exactly when it is new and the slot is free or may be taken, the one there goes to the new slot its own source assigns; otherwise it waits unless ten others do |
| `AddrManRuns.ResolveKeeps` | codexacoin-core/src/addrman.cpp:900-961 | settling one waiting entry keeps the invariant, the waiting set and the occupied tried slots |
| `AddrManEffects.ResolveSettles` | codexacoin-core/src/addrman.cpp:916-945 | a waiting entry is dropped if the one in its slot succeeded in the last four hours; takes its slot over if that one was tried in that time and had a minute, or if the waiting one succeeded more than forty minutes ago; and waits otherwise |
| `AddrManEffects.ResolveForgets` | codexacoin-core/src/addrman.cpp:909-919 | an id without an entry or with an address no longer valid is forgotten |
| `AddrManEffects.StepIs` | codexacoin-core/src/addrman.cpp:548-989 | the steps of a run: adding, noting a success, forgetting an id without an entry, and an exchange in the list of all entries |
| `AddrManEffects.NotesOneEntry` | codexacoin-core/src/addrman.cpp:690-897 | notes about a connection change one entry: at most twenty minutes behind after connecting, services replaced, the time of the last attempt |
| `AddrManEffects.FailsOnce` | codexacoin-core/src/addrman.cpp:690-708 | however many attempts follow without a success, the failure is counted once |
| `AddrManEffects.TerribleIff` | codexacoin-core/src/addrman.cpp:67-92 | when an entry is terrible, by the times and failures it is made of |
| `AddrManRuns.WaitingSlotOccupied` | codexacoin-core/src/addrman.cpp:900-989 | the tried slot of a waiting entry is never empty, so the branch for a collision that is gone is never taken |
| `AddrManRuns.StepKeeps` | codexacoin-core/src/addrman.cpp:548-989 | every single operation keeps soundness, reuses no id, changes the address of no id and empties no tried slot |
| `AddrManRuns.RunKeeps` | codexacoin-core/src/addrman.cpp:548-989 | the same over every run; positive times keep the time clauses as well |
| `AddrManRuns.EmptySound` | codexacoin-core/src/addrman.cpp:117-129 | a new address manager is sound |
| `AddrManObject.AddrMan.CreateEntry` | codexacoin-core/src/addrman.cpp:414-428 | the object does what `Create` does on values |
| `AddrManObject.AddrMan.SwapRandomEntries` | codexacoin-core/src/addrman.cpp:430-452 | the object swaps as on values |
| `AddrManObject.AddrMan.DeleteEntry` | codexacoin-core/src/addrman.cpp:454-469 | the object deletes as on values |
| `AddrManObject.AddrMan.ClearNewSlot` | codexacoin-core/src/addrman.cpp:471-487 | the object clears a slot as on values, writing the table in place |
| `AddrManObject.AddrMan.StripEntry` | codexacoin-core/src/addrman.cpp:491-507 | the loop over all new buckets, from any start bucket, removes exactly the slots of the entry |
| `AddrManObject.AddrMan.MakeTriedEntry` | codexacoin-core/src/addrman.cpp:489-546 | the object moves an entry to tried as on values |
| `AddrManObject.AddrMan.AddOne` | codexacoin-core/src/addrman.cpp:548-622 | the object adds an address as on values, for any random draw |
| `AddrManObject.AddrMan.AddAll` | codexacoin-core/src/addrman.cpp:678-688 | adding a list is the run of its single additions; it reports whether any was added |
| `AddrManObject.AddrMan.MarkGoodEntry` | codexacoin-core/src/addrman.cpp:624-676 | the object marks an address good as on values |
| `AddrManObject.AddrMan.UpdateEntry` | codexacoin-core/src/addrman.cpp:690-708 | attempt, connection and service updates change the entry of an address and nothing else |
| `AddrManObject.AddrMan.ResolveEntry` | codexacoin-core/src/addrman.cpp:904-959 | one round of settling collisions, as on values |
| `AddrManObject.AddrMan.ResolveCollisions` | codexacoin-core/src/addrman.cpp:900-961 | settles every waiting id once, in ascending order, with a fresh clock reading for each |
| `AddrManObject.AddrMan.SelectTriedCollision` | codexacoin-core/src/addrman.cpp:963-989 | a waiting id that is gone is forgotten; otherwise the entry in its tried slot is returned, which always exists |
| `AddrManObject.AddrMan.GetAddresses` | codexacoin-core/src/addrman.cpp:803-839 | distinct addresses of the network that are not terrible, no more than asked for and no larger share than allowed, and all of them if one more would be allowed |
| `AddrManObject.AddrMan.constructor` | codexacoin-core/src/addrman.cpp:117-129 | a new object stands for the empty state |
| `AddrManCheck.CheckEntries` | codexacoin-core/src/addrman.cpp:1063-1093 | the scan of all entries returns 0 exactly when each is well formed, and tallies them exactly |
| `AddrManCheck.CheckTried` | codexacoin-core/src/addrman.cpp:1100-1117 | the scan of the tried table finds every misplaced, missing or repeated entry, and says by its code which it is |
| `AddrManCheck.CheckNew` | codexacoin-core/src/addrman.cpp:1119-1135 | the scan of the new table finds every misplaced entry and every wrong reference count, and says by its code which it is |
| `AddrManCheck.CheckNetworks` | codexacoin-core/src/addrman.cpp:1137-1151 | the last comparisons return 0 exactly when leftovers, key and counters of the known networks agree |
| `AddrManCheck.CheckAddrman` | codexacoin-core/src/addrman.cpp:1051-1154 | the check returns 0 exactly on the states described by `Checked`; any other code stands for a fault that the state has, while all that is checked before it is in order |
| `AddrManCheck.SoundIsChecked` | codexacoin-core/src/addrman.cpp:1051-1154 | every sound state with positive times and a key passes the check |
| `AddrManCheck.CheckedIffInv` | codexacoin-core/src/addrman.cpp:1051-1154 | passing the check, with what it does not look at, is the same as the invariant |
| `AddrManCheck.CheckedCounters` | codexacoin-core/src/addrman.cpp:1137-1151 | an accepted state has exact counters if and only if every network with entries has a counter |
| `AddrManCheck.MissedCounter` | codexacoin-core/src/addrman.cpp:1137-1151 | a state that is accepted although the counter of its only network is missing |
| `AddrManCheck.Perform` | codexacoin-core/src/addrman.cpp:548-989 | every operation of a run, on the object |
| `AddrManCheck.RunAndCheck` | codexacoin-core/src/addrman.cpp:1051-1154 | after any run of operations at positive times the check returns 0 |
| `AddrManFile.LoadedTriedKeeps` | codexacoin-core/src/addrman.cpp:287-309 | loading a tried record keeps the invariant, whether it is taken or lost |
| `AddrManFile.TriedLost` | codexacoin-core/src/addrman.cpp:287-309 | a tried record is lost exactly when its address is not valid or its slot is taken; otherwise it is in that slot with all that was saved of it |
| `AddrManFile.LoadedRefKeeps` | codexacoin-core/src/addrman.cpp:344-374 | placing a stored reference keeps the invariant, in its stored bucket or recomputed |
| `AddrManFile.RefLost` | codexacoin-core/src/addrman.cpp:344-374 | a saved reference of a valid entry is lost exactly when the entry has eight or the slots it could go to are taken; otherwise it goes to its saved slot, or to the one its source assigns |
| `AddrManFile.Rebucketed` | codexacoin-core/src/addrman.cpp:344-374 | when buckets cannot be restored every slot holds an entry whose own slot it is, and a valid entry of the file is without one only if another took it |
| `AddrManLoad.OtherBuckets` | codexacoin-core/src/addrman.cpp:330-374 | a file of another bucket count or asmap does not decide where entries go: every slot is the one the source of its entry assigns |
| `AddrManReload.ReloadSame` | codexacoin-core/src/addrman.cpp:229-397 | the reloaded state is consistent, holds the saved contents and has nothing to prune |
| `AddrManStore.Serialize` | codexacoin-core/src/addrman.cpp:131-226 | the file lists every entry once, new ones first, and every occupied new slot once |
| `AddrManLoad.Unserialize` | codexacoin-core/src/addrman.cpp:229-397 | whatever the file, nothing is accessed out of bounds and a bad header is refused with its reason; the entries that found no slot are left out, and the rest is accepted exactly if it passes the check; what is accepted is sound |
| `AddrManPrune.Prune` | codexacoin-core/src/addrman.cpp:376-391 | exactly the entries without a slot are deleted, with their index and counts, in any order |
| `AddrManLoad.AcceptedSound` | codexacoin-core/src/addrman.cpp:229-397 | a loaded state that passes the check is sound: what the check does not look at holds after every load |
| `AddrManLoad.LoadAndRun` | codexacoin-core/src/addrman.cpp:229-397 | after loading any accepted file the check returns 0 over every run of operations at positive times |
| `AddrManLoad.SaveAndReload` | codexacoin-core/src/addrman.cpp:131-397 | saving and reloading with the same parameters gives the same addresses in the same slots with the same reference counts |
| `AddrManRoutable.RunRoutable` | codexacoin-core/src/addrman.cpp:548-622 | no run stores an address that cannot be routed to |
| `AddrManLoad.RunAndReload` | codexacoin-core/src/addrman.cpp:131-397 | whatever operations a new address manager went through, at positive times, it is saved and loaded without loss |
| `AddrManLoad.Capacity` | codexacoin-core/src/addrman.cpp:264-276 | the counters of a consistent state never exceed the table sizes that loading accepts |
| `CoinsSpec.UnspendableIff` | codexacoin-core/src/script/script.h:551-554 | an output cannot be spent exactly if its script starts with 0x6a or has more than 10000 bytes |
| `CoinsSpec.FetchKeeps` | codexacoin-core/src/coins.cpp:44-59 | pulling a coin from below changes no view and keeps the flags truthful |
| `CoinsSpec.AddExact` | codexacoin-core/src/coins.cpp:70-109 | adding shows the coin; flags stay truthful if and only if overwriting is allowed, the entry was dirty, or the parent has no coin there |
| `CoinsSpec.AddAllowed` | codexacoin-core/src/coins.cpp:70-109 | under the overwrite contract of the whole view adding never throws and keeps the flags truthful |
| `CoinsSpec.SpendKeeps` | codexacoin-core/src/coins.cpp:131-152 | spending removes the coin from the view, keeps the flags truthful, and leaves an entry exactly where the parent may have the coin |
| `CoinsSpec.UncacheKeeps` | codexacoin-core/src/coins.cpp:287-301 | uncaching changes no view and drops the entry exactly if it has no flag |
| `CoinsSpec.MergeOne` | codexacoin-core/src/coins.cpp:185-255 | writing back one truthful entry makes the parent show it, stays truthful towards the grandparent, keeps a legal flag state, never misapplies FRESH, and leaves no entry for a spent coin that the grandparent is known to lack |
| `CoinsSpec.MergeKeeps` | codexacoin-core/src/coins.cpp:185-255 | the same for a whole child cache |
| `CoinsSpec.WrittenIs` | codexacoin-core/src/txdb.cpp:91-150 | a batch written to the database makes it show what the cache showed |
| `CoinsSpec.CleanKeeps` | codexacoin-core/src/coins.cpp:257-285 | what Flush or Sync leaves in the written cache still shows the same; Sync leaves exactly the unspent coins |
| `CoinsTower.ReadKeeps` | codexacoin-core/src/coins.cpp:44-68 | a lookup through any number of levels changes no view at any level |
| `CoinsTower.FlushKeeps` | codexacoin-core/src/coins.cpp:257-285 | flushing or syncing any level copies its view to the level below and changes no other |
| `CoinsTower.ReadBestKeeps` | codexacoin-core/src/coins.cpp:175-179 | asking for the best block changes no level's answer |
| `CoinsTower.FlushBest` | codexacoin-core/src/coins.cpp:253-268 | a flush keeps the best block of the written cache if and only if it was set there or the parent added nothing |
| `CoinsTower.FlushForgetsBest` | codexacoin-core/src/coins.cpp:253-268 | a flush of a cache that never asked for the best block loses the one of its parent |
| `CoinsTower.StepRefines` | codexacoin-core/src/coins.cpp:44-301 | every operation does to the views of all levels what the flat maps say, and keeps the flags truthful |
| `CoinsTower.RunRefines` | codexacoin-core/src/coins.cpp:44-301 | the same over every run, for a tower of any depth |
| `CoinsTower.QuietRun` | codexacoin-core/src/coins.cpp:44-301 | a run without adds, spends and removals of the top level never changes the top view |
| `CoinsTower.NeverMisapplied` | codexacoin-core/src/coins.cpp:220-226 | a sound tower never reaches the exception about a misapplied FRESH flag |
| `CoinsCache.CoinsDb.BatchWrite` | codexacoin-core/src/txdb.cpp:91-150 | in any order and with any batches the database ends up written and marked with its block; after a crash between batches it is marked with both blocks, and every coin is as it was or as it is to be |
| `CoinsCache.WriteAgain` | codexacoin-core/src/txdb.cpp:91-150 | writing the same entries over what an interrupted write left gives what it would have given |
| `CoinsCache.CrashAndRetry` | codexacoin-core/src/txdb.cpp:91-150 | however often a write crashes, the first attempt that does not leaves what the first one would have left; until then the last complete block is known |
| `CoinsCache.Cache.OnCache` | codexacoin-core/src/coins.cpp:35-38 | a new cache on another is a pushed empty level |
| `CoinsCache.Cache.FetchCoin` | codexacoin-core/src/coins.cpp:44-59 | the recursive lookup updates the caches of all levels as on values |
| `CoinsCache.Cache.GetCoin` | codexacoin-core/src/coins.cpp:61-68 | returns the coin of the flat map and leaves the view as it is |
| `CoinsCache.Cache.HaveCoin` | codexacoin-core/src/coins.cpp:165-168 | tells whether the flat map has a coin |
| `CoinsCache.Cache.AddCoin` | codexacoin-core/src/coins.cpp:70-109 | fails exactly on a spendable coin over an unspent one of this cache without the overwrite flag, and says what the cache then holds; its memory stays accounted for if and only if it succeeds or the coin in the way takes no memory; under the contract it is the step on values |
| `CoinsCache.Cache.SpendCoin` | codexacoin-core/src/coins.cpp:131-152 | removes the coin from the view; the coin moved out tells whether there was one, the result alone does not |
| `CoinsCache.Cache.UncacheCoin` | codexacoin-core/src/coins.cpp:287-301 | drops an entry without flags, and no view changes |
| `CoinsCache.Cache.GetBestBlock` | codexacoin-core/src/coins.cpp:175-179 | the first best block set from the top down, remembered on the way |
| `CoinsCache.Cache.SetBestBlock` | codexacoin-core/src/coins.cpp:181-183 | sets the best block of this level only |
| `CoinsCache.Cache.BatchWrite` | codexacoin-core/src/coins.cpp:185-255 | in any order of the entries, it fails exactly when a FRESH flag was misapplied and otherwise merges all |
| `CoinsCache.Cache.FlushAll` | codexacoin-core/src/coins.cpp:257-268 | the level below then shows what this cache showed, and this cache is empty |
| `CoinsCache.Cache.Sync` | codexacoin-core/src/coins.cpp:270-285 | the same, keeping the unspent coins without flags |
| `CoinsCache.Cache.SanityCheck` | codexacoin-core/src/coins.cpp:341-356 | passes exactly when only the five legal flag states occur and the memory of the coins adds up to what was accounted for, as in every valid cache |
| `CoinsUsage.UsageLess` | codexacoin-core/src/coins.cpp:341-356 | the sum of the memory of all coins does not depend on the order of the entries |
| `CoinsCache.Cache.MergeEntry` | codexacoin-core/src/coins.cpp:190-251 | merging an entry keeps the memory accounted for |
| `CoinsCache.RefusalMiscounts` | codexacoin-core/src/coins.cpp:70-109 | a refused addition after which the sanity check fails |
| `CoinsCache.AddCoins` | codexacoin-core/src/coins.cpp:119-129 | the view gains exactly the spendable outputs of the transaction, each with its output, height, kind and time |
| `CheckQueue.BatchSize` | codexacoin-core/src/checkqueue.h:108-113 | a batch has at least one check, no more than are queued and no more than the limit unless it is one |
| `CheckQueue.BatchFair` | codexacoin-core/src/checkqueue.h:108-113 | a batch of more than one is the largest within the limit that leaves as many for every other thread |
| `CheckQueue.TakeKeeps` | codexacoin-core/src/checkqueue.h:91-119 | sleeping, returning from Wait and taking a batch each keep the invariant |
| `CheckQueue.SettleKeeps` | codexacoin-core/src/checkqueue.h:80-89 | crediting a finished batch keeps the invariant and wakes a sleeping master with the last one |
| `CheckQueue.ExecKeeps` | codexacoin-core/src/checkqueue.h:120-124 | executing, or after a failure skipping, one check keeps the invariant |
| `CheckQueue.AddKeeps` | codexacoin-core/src/checkqueue.h:163-173 | the critical section of Add keeps the invariant |
| `CheckQueue.NotifyKeeps` | codexacoin-core/src/checkqueue.h:175-179 | the notification keeps the invariant, by which a pool with queued and notified work is not all asleep |
| `CheckQueue.RoundVerdict` | codexacoin-core/src/checkqueue.h:92-99 | with nothing left to do the shared result is whether every check of the round passes |
| `CheckQueue.StepKeeps` | codexacoin-core/src/checkqueue.h:69-180 | every step of every thread keeps the invariant |
| `CheckQueueRuns.EveryRun` | codexacoin-core/src/checkqueue.h:69-180 | in every interleaving each completed Wait returned whether all checks since the previous one pass, the work counter is exact and no check has run twice |
| `CheckQueueAnswers.EveryAnswer` | codexacoin-core/src/checkqueue.h:69-190 | in every interleaving there is one answer for each Wait but the one going on, and it says whether all checks handed to Add since the Wait before pass |
| `CheckQueueRuns.NothingTwice` | codexacoin-core/src/checkqueue.h:113-123 | no check has run twice, and each check of the round is queued, in flight or done exactly once |
| `CheckQueueRuns.Progress` | codexacoin-core/src/checkqueue.h:76-125 | inside Add or Wait the master, or a worker it waits for, always has a step to take |
| `CheckQueueRuns.QueuedWorkIsSeen` | codexacoin-core/src/checkqueue.h:163-180 | queued work that has been notified finds a worker that is awake |
| `CheckQueueRuns.StepWorks` | codexacoin-core/src/checkqueue.h:76-125 | every step uses up work; a spurious wake-up adds one unit |
| `CheckQueueRuns.RunBounded` | codexacoin-core/src/checkqueue.h:76-125 | left to itself the pool takes at most as many steps as there is work, plus two per spurious wake-up |
| `CheckQueueRuns.WaitAnswers` | codexacoin-core/src/checkqueue.h:157-160 | once no step is left the Wait under way has returned the verdict on all checks added |
| `Uint256.Uint.constructor` | codexacoin-core/src/arith_uint256.h:51-57 | the number of 64 bits it is made from |
| `Uint256.Uint.Add` | codexacoin-core/src/arith_uint256.h:127-137 | the sum modulo 2^256 |
| `Uint256.Uint.Increment` | codexacoin-core/src/arith_uint256.h:165-172 | adds one modulo 2^256, limb carry by limb carry |
| `Uint256.Uint.Decrement` | codexacoin-core/src/arith_uint256.h:182-189 | subtracts one modulo 2^256 |
| `Uint256.Uint.Not` | codexacoin-core/src/arith_uint256.h:61-67 | the complement is 2^256 - 1 - x |
| `Uint256.Uint.Neg` | codexacoin-core/src/arith_uint256.h:69-76 | the negation modulo 2^256 |
| `Uint256.Uint.Sub` | codexacoin-core/src/arith_uint256.h:139-143 | the difference modulo 2^256 |
| `Uint256.Uint.MulLimb` | codexacoin-core/src/arith_uint256.cpp:54-64 | the product with one limb modulo 2^256 |
| `Uint256.Uint.AddRow` | codexacoin-core/src/arith_uint256.cpp:70-77 | one row of the multiplication is exact, up to a multiple of 2^256 |
| `Uint256.Uint.AddProduct` | codexacoin-core/src/arith_uint256.cpp:73-75 | limb product plus limb plus carry fits 64 bits, and splits into limb and carry |
| `Uint256.Uint.Mul` | codexacoin-core/src/arith_uint256.cpp:66-80 | the product modulo 2^256 |
| `Uint256.Uint.ShiftLeft` | codexacoin-core/src/arith_uint256.cpp:20-35 | the product with 2^shift modulo 2^256, for every shift |
| `Uint256.Uint.ShiftRight` | codexacoin-core/src/arith_uint256.cpp:37-52 | the floor of the quotient by 2^shift, for every shift |
| `Uint256.Uint.CompareTo` | codexacoin-core/src/arith_uint256.cpp:108-118 | the three-way comparison of the numbers |
| `Uint256.Uint.EqualTo` | codexacoin-core/src/arith_uint256.cpp:120-132 | equality with a number of 64 bits |
| `Uint256.Uint.Bits` | codexacoin-core/src/arith_uint256.cpp:178-191 | the number of bits: 2^(n-1) <= x < 2^n |
| `Uint256.Uint.GetLow64` | codexacoin-core/src/arith_uint256.h:237-241 | the number modulo 2^64 |
| `Uint256.Uint.DivStep` | codexacoin-core/src/arith_uint256.cpp:96-103 | one round keeps quotient * divisor + rest and halves the bound on the rest |
| `Uint256.Uint.Div` | codexacoin-core/src/arith_uint256.cpp:82-106 | fails exactly on zero, otherwise the floor of the quotient |
| `Compact.Overflows` | codexacoin-core/src/arith_uint256.cpp:211-214 | the three tests hold exactly when mantissa * 256^(size - 3) reaches 2^256 |
| `Compact.SetCompact` | codexacoin-core/src/arith_uint256.cpp:198-216 | overflow exactly when the number does not fit, otherwise its floor is stored; negative exactly when the sign is set on a non-zero number |
| `Compact.GetCompact` | codexacoin-core/src/arith_uint256.cpp:218-239 | the unique compact form of the number, with the sign where asked for and the mantissa not zero |
| `Compact.CompactUnique` | codexacoin-core/src/arith_uint256.cpp:218-239 | a number has one compact form |
| `Compact.Monotone` | codexacoin-core/src/arith_uint256.cpp:218-239 | a smaller number never has a larger compact form |
| `Compact.RoundTrip` | codexacoin-core/src/arith_uint256.cpp:198-239 | decoding the compact form gives t <= x with (x - t) * 2^15 <= x, and t has the same compact form |
| `Compact.Requantize` | codexacoin-core/src/arith_uint256.cpp:198-239 | the same through the two methods, in place |
| `Compact.TargetBelowTop` | codexacoin-core/src/chain.cpp:146-150 | no decoded target is 2^256 - 1, so adding one does not wrap |
| `Compact.GetBlockProof` | codexacoin-core/src/chain.cpp:138-151 | floor(2^256 / (target + 1)), or zero for a target that is negative, too large or zero |
| `SkipList.InvertsLowest` | codexacoin-core/src/chain.cpp:79-80 | which bit is cleared: the lowest one set |
| `SkipList.GetSkipHeight` | codexacoin-core/src/chain.cpp:82-91 | a skip goes strictly back from every height but zero |
| `SkipList.StepsBound` | codexacoin-core/src/chain.cpp:82-118 | from a height below 2^k, for k of at least 3, any ancestor is reached in at most `Most(k)` steps of a skip or a single block |
| `SkipList.MostSquare` | codexacoin-core/src/chain.cpp:82-118 | that bound is at most k squared |
| `SkipList.AtMost110` | codexacoin-core/src/chain.cpp:87-89 | below 2^18 blocks it takes at most 110 steps |
| `Chain.BlockIndex.GetAncestor` | codexacoin-core/src/chain.cpp:93-118 | the same block as following parents, or none outside the range; below height 2^18, where every block has its skip link, after at most 110 steps |
| `Chain.BlockIndex.BuildSkip` | codexacoin-core/src/chain.cpp:125-129 | the skip link leads to the ancestor at the skip height, and the tree stays well formed |
| `Chain.Grow` | codexacoin-core/src/chain.cpp:125-129 | every block added to the tree keeps it well formed, and one in which every block has its skip link stays so |
| `Chain.ActiveChain.SetTip` | codexacoin-core/src/chain.cpp:21-29 | every slot holds the ancestor of the new tip at its height, although rewriting stops at the first match |
| `Chain.ActiveChain.Next` | codexacoin-core/src/chain.h:519-526 | the child of the block in the chain, or none for the tip and for other blocks |
| `Chain.ActiveChain.FindFork` | codexacoin-core/src/chain.cpp:60-69 | the highest common ancestor of the block and the tip, or none |
| `Chain.LastCommonAncestor` | codexacoin-core/src/chain.cpp:172-187 | the highest common ancestor, or none for blocks of different trees |
| `Chain.CommonBelow` | codexacoin-core/src/chain.cpp:172-187 | the common ancestors are exactly those up to the highest |
| `Chain.LocatorEntries` | codexacoin-core/src/chain.cpp:31-48 | the block, ten single steps back, then steps that double, down to the first block; the last step is the largest |
| `Chain.LocatorShape` | codexacoin-core/src/chain.cpp:31-48 | a locator holds ancestors only, at heights that fall to zero |
| `Chain.LocatorShort` | codexacoin-core/src/chain.cpp:31-48 | it has at most m + 11 entries exactly below height 2^m + 10 |
| `Chain.StepFits` | codexacoin-core/src/chain.cpp:31-48 | the step stays below 2^31 exactly below height 2^30 + 10 |
| `Chain.StepOverflows` | codexacoin-core/src/chain.cpp:31-48 | at height 2^30 + 10 the step reaches 2^31 |
| `Chain.LocatorAccepted` | codexacoin-core/src/net_processing.cpp:95-95 | no height of 32 bits gives a locator longer than peers accept |
| `Radix.MulAdd` | codexacoin-core/src/base58.cpp:101-111 | multiply-and-add in place: with room for the result no carry is left, and the length is again the number of digits |
| `Base58.Alphabet` | codexacoin-core/src/base58.cpp:17-36 | the letters are the digits and letters but 0, O, I and l, and their values follow their order |
| `Base58.EncodedFits` | codexacoin-core/src/base58.cpp:97-98 | the buffer of 138/100 of the bytes plus one always suffices |
| `Base58.DecodedFits` | codexacoin-core/src/base58.cpp:52-53 | the buffer of 733/1000 of the characters plus one always suffices |
| `Base58.EncodeBase58` | codexacoin-core/src/base58.cpp:87-125 | the in-place encoder gives the digits of the whole number after a 1 for each leading zero byte |
| `Base58.WalletEncode` | web-wallet/crypto.js:59-75 | the big-integer encoder of the web wallet gives the same string |
| `Base58.DecodeBase58` | codexacoin-core/src/base58.cpp:38-85 | the in-place decoder gives the bytes of the whole number, or fails on a bad character, inner space, NUL or excess length |
| `Base58.DecodeEncode` | codexacoin-core/src/base58.cpp:38-125 | decoding an encoding gives the bytes back, unless they are more than allowed |
| `Base58.EncodeDecode` | codexacoin-core/src/base58.cpp:38-125 | encoding what a string without spaces decodes to gives the string back |
| `Base58.WithinLimit` | codexacoin-core/src/base58.cpp:38-85 | an accepted string gives no more bytes than the limit if and only if the limit is not negative or the string holds something besides spaces |
| `Base58.SpacesDecode` | codexacoin-core/src/base58.cpp:38-85 | a string of spaces is accepted whatever the limit |
| `Base58.NegativeLimit` | codexacoin-core/src/base58.cpp:38-85 | two spaces are accepted with a limit of -1 |
| `Bech32.PolyMod` | codexacoin-core/src/bech32.cpp:130-216 | the remainder of the values, step by step |
| `Bech32.StepLinear` | codexacoin-core/src/bech32.cpp:177-214 | a step is linear over exclusive or |
| `Bech32.StepInjective` | codexacoin-core/src/bech32.cpp:177-214 | a step by zero takes only zero to zero |
| `Bech32.WindowDetects` | codexacoin-core/src/bech32.cpp:130-216 | two lists that differ only within six consecutive places never have the same remainder, at any length |
| `Bech32.CreateChecksum` | codexacoin-core/src/bech32.cpp:340-352 | six values that make the remainder the constant of the encoding |
| `Bech32.ExpandDiffers` | codexacoin-core/src/bech32.cpp:311-324 | prefixes that differ at a place differ in one of its two parts of the expansion, and nowhere else |
| `Bech32.ExpandInjective` | codexacoin-core/src/bech32.cpp:311-324 | different prefixes of one length have different expansions |
| `Bech32.ChecksumRight` | codexacoin-core/src/bech32.cpp:340-352 | a checksum makes the remainder the constant of its encoding |
| `Bech32.ChecksumUnique` | codexacoin-core/src/bech32.cpp:326-352 | no other six values do |
| `Bech32.Verifies` | codexacoin-core/src/bech32.cpp:326-338 | six values verify for an encoding exactly when they are its checksum |
| `Field.FixedZero` | codexacoin-core/src/bech32.cpp:36-45 | the element (e) has order 1023: no smaller power of it fixes anything but zero |
| `Field.PowersDistinct` | codexacoin-core/src/bech32.cpp:36-45 | the powers of (e) below 1023 are different, and none is zero |
| `Bch.AreRoots` | codexacoin-core/src/bech32.cpp:160-175 | the generator has the powers 997, 998 and 999 of (e) as roots |
| `Bch.StepValue` | codexacoin-core/src/bech32.cpp:177-214 | a step multiplies the value at a root by the root and adds the next coefficient |
| `Bch.ErrorsDetected` | codexacoin-core/src/bech32.cpp:138-175 | two lists that differ in up to three places, less than 1023 apart, never have the same remainder |
| `Bch.ListsApart` | codexacoin-core/src/bech32.cpp:138-175 | lists of up to 1023 values with the same remainder are the same or differ in at least four places |
| `Bch.FourApart` | codexacoin-core/src/bech32.cpp:138-175 | with the same prefix and encoding, accepted lists of up to 1023 values are the same or differ in at least four places |
| `Bech32Distance.DecodedApart` | codexacoin-core/src/bech32.cpp:311-397 | strings of one length with the separator at the same place, both accepted for one encoding, are the same but for case or differ in at least four characters, one of the prefix counting twice |
| `Bech32Vectors.CharsetIs` | codexacoin-core/src/bech32.cpp:22-23 | the characters in the order of their values |
| `Bech32Vectors.PlainVector` | codexacoin-core/src/test/bech32_tests.cpp:17-25 | a valid string of BIP 173 decodes to its prefix, with no values, for the first encoding |
| `Bech32Vectors.ModifiedVector` | codexacoin-core/src/test/bech32_tests.cpp:37-45 | a valid string of BIP 350 decodes to the same for the second encoding |
| `Bech32Codec.CheckCharacters` | codexacoin-core/src/bech32.cpp:286-309 | exactly the places, in order, of characters that are not printable or not of the case of the first letter; none exactly when all are printable and of one case |
| `Bech32Codec.Encode` | codexacoin-core/src/bech32.cpp:356-370 | prefix, separator, values and checksum, spelled |
| `Bech32Codec.Decode` | codexacoin-core/src/bech32.cpp:372-397 | the parts, or none for bad characters, length, separator, symbols or checksum |
| `Bech32Codec.DecodeEncode` | codexacoin-core/src/bech32.cpp:356-397 | an encoding decodes to its parts exactly when the prefix is printable and not empty and the whole has at most 90 characters |
| `Bech32Codec.EncodeDecode` | codexacoin-core/src/bech32.cpp:356-397 | whatever decodes is, in lower case, the encoding of what it decodes to |
| `Cuckoo.EpochKeeps` | codexacoin-core/src/cuckoocache.h:288-320 | checking the epochs moves nothing and keeps soundness |
| `CuckooEpochs.CheckAges` | codexacoin-core/src/cuckoocache.h:288-320 | a new epoch keeps exactly what was of the current one and calls none of it current, any other check changes no flag; the next scan is an epoch away, or the least number of insertions that is due |
| `CuckooEpochs.OldAfterTurns` | codexacoin-core/src/cuckoocache.h:288-448 | over every run an element that is not inserted again is of the old epoch after one turn and erasable after two, wherever it was moved |
| `CuckooEpochs.KeptBound` | codexacoin-core/src/cuckoocache.h:163-448 | over every run from a new cache neither epoch keeps more slots than epoch_size and the least scan interval, a sixteenth of it or one |
| `CuckooEpochs.EpochShare` | codexacoin-core/src/cuckoocache.h:346-347 | an epoch is 45 percent of the table exactly if 45 times the size fits 32 bits, and never more |
| `CuckooEpochs.EpochWraps` | codexacoin-core/src/cuckoocache.h:346-347 | for 95443718 elements it is one |
| `CuckooEpochs.NeverFull` | codexacoin-core/src/cuckoocache.h:189-197 | with epochs of at most 45 percent of more than 20 slots, some slot can always be overwritten |
| `Cuckoo.FoundIff` | codexacoin-core/src/cuckoocache.h:477-487 | an element is in the table exactly when it is at one of its eight places |
| `Cuckoo.InsertKeeps` | codexacoin-core/src/cuckoocache.h:400-448 | after an insertion every kept slot is a place of its element and no element but the default one is in two slots |
| `Cuckoo.InsertConserves` | codexacoin-core/src/cuckoocache.h:400-448 | after the epoch check an insertion loses at most one kept element, possibly the new one |
| `Cuckoo.RoomIsUsed` | codexacoin-core/src/cuckoocache.h:414-447 | with room among its places an element goes to one of them and nothing else changes; without, the first one displaced moves if it has room, and something is dropped only if nothing could be overwritten |
| `Cuckoo.DisplaceTravels` | codexacoin-core/src/cuckoocache.h:438-446 | an element that is displaced and not dropped keeps its epoch flag |
| `Cuckoo.FirstDisplaced` | codexacoin-core/src/cuckoocache.h:424-437 | displacement starts at the second place of an element, which is the first only if both are the same |
| `Cuckoo.EpochProtects` | codexacoin-core/src/cuckoocache.h:288-320 | a protected element is not given up by the next check, and is protected for one insertion less |
| `Cuckoo.InsertIsRecent` | codexacoin-core/src/cuckoocache.h:400-448 | an inserted element that is not dropped at once belongs to the current epoch |
| `Cuckoo.KeptForAnEpoch` | codexacoin-core/src/cuckoocache.h:288-487 | over any run of lookups, erasures of others and at most epoch_size + 1 insertions no epoch check gives up an element; only want of room can |
| `CuckooCache.Cache.constructor` | codexacoin-core/src/cuckoocache.h:338-351 | a new cache is sound and all its slots are erasable |
| `CuckooCache.Cache.Contains` | codexacoin-core/src/cuckoocache.h:477-487 | finds an element other than the default one exactly when the table has it; erasing marks its slot and changes nothing else |
| `CuckooCache.Cache.EpochCheck` | codexacoin-core/src/cuckoocache.h:288-320 | the scan in place, as on values |
| `CuckooCache.Cache.Insert` | codexacoin-core/src/cuckoocache.h:400-448 | the insertion in place, as on values |
| `CuckooCache.Cache.Rehouse` | codexacoin-core/src/cuckoocache.h:414-447 | the displacement loop in place, as on values |
| `Cuckoo.LookProtects` | codexacoin-core/src/cuckoocache.h:477-487 | a lookup never gives up an element other than the one it erases |
| `CuckooCache.Cache.PerformAll` | codexacoin-core/src/cuckoocache.h:288-487 | a run of insertions and lookups on the object, as on values |
| `CuckooCache.UseNew` | codexacoin-core/src/cuckoocache.h:288-487 | whatever is asked of a new cache object, its epochs stay within their bound and a slot stays free |
| `CompactBlocks.LayoutCounts` | codexacoin-core/src/blockencodings.cpp:63-79 | an accepted layout has exactly one empty position for every short id |
| `BlockLayout.LayoutExact` | codexacoin-core/src/blockencodings.cpp:63-78 | a message has a layout exactly when no prefilled transaction is null and the sums of the indexes stay within 16 bits and leave no gap the short ids cannot fill; each transaction is then at its sum and no other position is taken |
| `BlockLayout.AnyDescribes` | codexacoin-core/src/blockencodings.cpp:63-79 | for any block and any set of positions, the message that prefills them by their distances and names the rest is accepted, and its layout holds exactly those transactions of the block |
| `CompactBlocks.IdsDistinct` | codexacoin-core/src/blockencodings.cpp:85-107 | the map has as many entries as there are short ids exactly when they are distinct |
| `CompactBlocks.SearchedAgrees` | codexacoin-core/src/blockencodings.cpp:109-167 | without collisions no position ever holds a wrong transaction |
| `CompactBlocks.SearchedExact` | codexacoin-core/src/blockencodings.cpp:109-167 | with a mempool without repetitions a position is filled exactly when its transaction is prefilled, in the mempool or among the extra ones, also when a scan stops early |
| `BlockSearch.SearchFinds` | codexacoin-core/src/blockencodings.cpp:109-167 | what the search leaves whatever collides: a position holds the first match, and is given up for good if two of the mempool match it or two matches have different hashes; scans stop early only when every short id has its transaction |
| `CompactBlocks.FillsBack` | codexacoin-core/src/blockencodings.cpp:189-199 | filling by what is missing gives the block, with nothing left over |
| `CompactBlocks.FilledExact` | codexacoin-core/src/blockencodings.cpp:189-206 | filling succeeds exactly if the list is long enough; taken positions stay, each empty one gets the next of the list, the rest is left over |
| `BlockLayout.SentDescribes` | codexacoin-core/src/blockencodings.cpp:20-31 | the message of a sender is the one that prefills the first position, and describes its block |
| `PartialBlock.Partial.PlacePrefilled` | codexacoin-core/src/blockencodings.cpp:63-78 | the loop over prefilled transactions stays in bounds, accepts exactly the messages whose index sums fit, and puts each transaction at its sum |
| `PartialBlock.Partial.FillIds` | codexacoin-core/src/blockencodings.cpp:85-103 | every short id gets the next empty position; positions never run out and fit 16 bits |
| `PartialBlock.Partial.InitData` | codexacoin-core/src/blockencodings.cpp:51-172 | the status for every message, and on success the positions of layout and search |
| `PartialBlock.Partial.FillBlock` | codexacoin-core/src/blockencodings.cpp:182-228 | the status and the block for every list of missing transactions; the object is used up |
| `PartialBlock.Partial.IsTxAvailable` | codexacoin-core/src/blockencodings.cpp:174-180 | a position is available exactly when it is not among those still to be asked for |
| `PartialBlock.Reconstruct` | codexacoin-core/src/blockencodings.cpp:51-228 | for any block and any prefilled positions, without collisions and with just the missing transactions, the block comes back, exactly when short ids are distinct, the hash table is even and the block passes its checks |
| `BlockRelay.Announce` | codexacoin-core/src/blockencodings.cpp:20-31 | the message of a sender, by a loop over the block |
| `BlockRelay.Request` | codexacoin-core/src/net_processing.cpp:4734-4738 | a receiver asks for exactly the empty positions, in order |
| `BlockRelay.AskedExactly` | codexacoin-core/src/net_processing.cpp:4734-4738 | with a mempool without repetitions these are exactly the positions of transactions that are not prefilled and not known |
| `BlockRelay.Answer` | codexacoin-core/src/net_processing.cpp:2692-2705 | a sender returns the transactions asked for, and refuses exactly the requests that go beyond the block |
| `BlockRelay.PickedIsMissing` | codexacoin-core/src/net_processing.cpp:2692-2705 | what is returned for the empty positions is just what is missing |
| `BlockRelay.Relay` | codexacoin-core/src/blockencodings.cpp:20-228 | from announcement over request and answer to the rebuilt block: it arrives as it was, exactly when short ids are distinct, the hash table is even and the block passes its checks |
| `Difference.Formatter.Ser` | codexacoin-core/src/blockencodings.h:30-36 | a value is written exactly when it does not lie before the running position, and a reader at that position gets it back |
| `Difference.Formatter.Unser` | codexacoin-core/src/blockencodings.h:37-44 | a distance read without wrap-around and within range, or refused |
| `Difference.ReadWrite` | codexacoin-core/src/blockencodings.h:25-45 | writing succeeds exactly on rising lists, and reading gives the list back |
| `Difference.WriteRead` | codexacoin-core/src/blockencodings.h:25-45 | whatever is read is rising, and writing gives back what was read |
| `Difference.WriteList` | codexacoin-core/src/blockencodings.h:25-36 | a list written value by value, as on values |
| `Difference.ReadList` | codexacoin-core/src/blockencodings.h:37-45 | a list read value by value, as on values |
| `Difference.WriteAndRead` | codexacoin-core/src/blockencodings.h:25-45 | exactly the rising lists pass through the stream, unchanged |
| `Ledger.WatchTwice` | vps-gateway/staking.py:101-204 | a second watcher pass on an unchanged chain changes nothing, even after a pass that broke off |
| `LedgerRuns.PlainSteps` | vps-gateway/staking.py:85-98 | a first sign-up with a referrer names the referrer for good, and a new deposit awaits funds |
| `LedgerRuns.OtherSteps` | vps-gateway/staking.py:200-267 | the other steps of a run are a watcher pass and the two kinds of payout |
| `LedgerRuns.CreditReferralKeeps` | vps-gateway/referral.py:59-88 | crediting a referral keeps the books right: a referred user yields at most one credit, the share of the deposit of theirs that was funded first |
| `LedgerRuns.CreditOneKeeps` | vps-gateway/staking.py:158-193 | crediting a coinstake keeps the books right: no coinstake is credited twice, fee plus net equals gross |
| `LedgerRewards.EveryReward` | vps-gateway/staking.py:138-197 | over every run each reward belongs to a transaction that the node showed to a watcher pass as a coinstake spending the output that funded its deposit, and its gross is the sum of its outputs less the sum of the outputs its inputs refer to |
| `LedgerRewards.PassMissesNothing` | vps-gateway/staking.py:101-197 | after a pass that ran to its end every awaiting deposit with an output at its address is funded by the first, and every such transaction in the history of an active deposit with spent funds has a reward |
| `LedgerRewards.WorthIs` | vps-gateway/staking.py:207-235 | what the deposits of a user in a phase are worth is the sum of their amounts and of the net of every reward that belongs to one |
| `LedgerRuns.WatchKeeps` | vps-gateway/staking.py:200-204 | a watcher pass keeps the books right |
| `LedgerRuns.WithdrawKeeps` | vps-gateway/staking.py:238-267 | a withdrawal keeps payouts within the worth of withdrawn deposits |
| `LedgerRuns.WithdrawSettles` | vps-gateway/staking.py:238-267 | an accepted withdrawal leaves nothing due; paid plus due is conserved if and only if all that was due was asked for |
| `LedgerRuns.PaidOutIff` | vps-gateway/staking.py:238-267 | a payout is accepted exactly when it was sent and is positive and at most what is due; a referral payout exactly when it was sent and something is due, and then pays all of it |
| `LedgerRuns.ForfeitsRest` | vps-gateway/staking.py:238-267 | a run in which 1 of 100 is paid and nothing is left due |
| `LedgerRuns.ReferralWithdrawKeeps` | vps-gateway/referral.py:151-173 | a referral withdrawal keeps payouts equal to withdrawn credits |
| `LedgerRuns.EveryRun` | vps-gateway/staking.py:85-267 | over every run nobody is paid more than the principal and net rewards of their withdrawn deposits, and every credit is given once |
| `LedgerCredits.CreditSettled` | vps-gateway/referral.py:59-88 | once a deposit of a user is funded, whether the user is credited for never changes, over every run |
| `LedgerCredits.CreditedIff` | vps-gateway/referral.py:59-88 | over every run, a referred user with a funded deposit is credited for if and only if they did not get their referrer after a deposit of theirs was funded and the share of the one funded first is positive |
| `Gateway.Gateway.CreditReferralIfEligible` | vps-gateway/referral.py:59-88 | the credit of one deposit, as on values |
| `Gateway.Gateway.MarkFundedDeposits` | vps-gateway/staking.py:101-125 | the loop over deposits, as on values, up to an error |
| `Gateway.Gateway.SumInputs` | vps-gateway/staking.py:179-182 | the value of all inputs, or none if one cannot be looked up |
| `Gateway.Gateway.CreditHistory` | vps-gateway/staking.py:158-193 | the loop over a history, as on values, up to an error |
| `Gateway.Gateway.AttributeRewards` | vps-gateway/staking.py:138-197 | the loop over active deposits, as on values, up to an error |
| `Gateway.Gateway.RunWatcherPass` | vps-gateway/staking.py:200-204 | one pass, as on values |
| `Gateway.Gateway.StatusForUser` | vps-gateway/staking.py:207-235 | the principal of the active deposits, and what their net rewards add to it |
| `Gateway.Gateway.Withdraw` | vps-gateway/staking.py:238-267 | pays at most that and closes all active deposits, or changes nothing |
| `Gateway.Gateway.ReferralWithdraw` | vps-gateway/referral.py:151-173 | pays exactly the credits that are due, or changes nothing |
| `Gateway.Gateway.Perform` | vps-gateway/staking.py:85-267 | every operation of a run, on the object |
| `Gateway.PerformAll` | vps-gateway/staking.py:85-267 | whatever is asked of a new gateway, its books are right |

## Left out

- Selection of an address to connect to (`Select_`) in the address manager: it ends only with probability one, and its chances are floating point.
- Byte layout of the address file: the model has its fields and records, not the stream, the checksum around it or the asmap itself.
- Clock: times are parameters, and one call of an address manager operation sees one time; only settling collisions reads the clock anew for each entry.
- Random draws: each is an arbitrary choice from its range.
- `FindAddressEntry_`, `GetEntries_` and `Size_`: they only read the tables.
- CoinsCache.Cache.SanityCheck: the memory of a coin is a function of the length of its script, as if no capacity were spare; the memory of the map itself and `ReallocateCache` are not modelled.
- `EmplaceCoinInternalDANGER`, which is deliberately unchecked.
- CoinsCache.CoinsDb.BatchWrite: the size of a batch is any function of the number of its changes, and one batch is written as a whole; the replay of blocks that rebuilds the entries after a crash is not modelled.
- Stopping and restarting the check queue: runs are without a stop request.
- Widths of the counters of the check queue and of buffer lengths: they are unbounded here.
- `GetBlockProofEquivalentTime`, `getdouble` and the hexadecimal forms of 256-bit numbers.
- `FindEarliestAtLeast` and `GetLastBlockIndex`: they depend on times and flags that the block index model does not have.
- `LocateErrors` in Bech32, and its tables of logarithms; the field they are about is modelled.
- Bech32Distance.DecodedApart: detection of four errors within 89 characters is not stated, since the choice of the generator for it rests on an exhaustive search; three errors are detected.
- `EncodeBase58Check` and `DecodeBase58Check`: they add a hash, which the web wallet's encoder takes as part of its input here.
- Bit packing and atomics of the flags of the cuckoo cache, `setup_bytes`, and the depth limit as a logarithm: the limit is a parameter.
- `extra_count` in block reconstruction: it only feeds a log line.
- `InitData`: messages have at most 65535 transactions, as reading one from the wire demands; the uneven hash table and the checks of the whole block are parameters that may fail anywhere.
- Short ids and their keys: a short id is any function of the witness hash.
- AddrManCheck.CheckAddrman: where several entries or slots are bad, the code is that of one of them, since entries are visited in the order of a hash map.
- AddrManLoad.Unserialize: the order of `vRandom` after entries were dropped is left open, since it depends on the order of a hash map.
- Sending of a payment: whether it succeeds is a parameter, and the node is taken to refuse amounts that are not positive.
- Amounts of the gateway as decimal numbers: they are whole satoshis here, so no rounding occurs.
- Push notifications, accounts, addresses of deposits in the wallet and concurrent requests of the gateway: operations run one after another.
- The order of table rows without an ORDER BY in the gateway: rows come in the order of their ids.
