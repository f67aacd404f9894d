# A Dafny model of the Dash Core data structures

This project models the stateful data structures and codecs at the heart of the
node and proves what each of them is for.  `dafny verify dfyconfig.toml` checks it.

| files | models |
|---|---|
| `AddrManState`, `AddrManOps`, `AddrManRuns`, `AddrManAnswers` | the address manager: five cross-linked indexes, reference counts, per-network counters and the collision set, as values; the exact outcome of each operation |
| `AddrManImpl`, `AddrManStore` | the same manager with its tables as arrays and its scanning loops, saving and loading included |
| `AddrManCheck`, `AddrManSerialize`, `AddrManLoaded`, `AddrManRebucket` | the consistency check, the saved form and what loads from it, under the same bucketing and under another |
| `Coins`, `CoinsStack` | a stack of write-back coin caches over a database |
| `CheckQueue` | the master/worker check queue as atomic steps between critical sections |
| `CuckooCache` | the packed flags and the eight-way cuckoo cache |
| `Limbs`, `Arith256`, `ArithShift`, `ArithDivide`, `ArithCompact` | limb arithmetic of any width, the compact target format, block proofs |
| `BlockTree` | block tree with skip pointers, active chain, forks and locators |
| `Radix`, `Base58`, `Bech32` | the two address codecs |
| `Gf1024`, `Bech32Errors` | the field behind the Bech32 generator and what its checksum detects |
| `DbTransaction`, `DbIterator` | nested database transactions and their merging iterator |
| `CompactBlocks` | reconstruction of compact blocks, difference-coded indexes |
| `NatArith`, `MapSums`, `Options` | shared arithmetic facts, sums over maps and the option type |

## How the model is built

* Objects whose methods update fields are classes; vectors and maps are `seq` and
  `map` fields, fixed tables and limb buffers are arrays.  A class method states its
  new state through a specification function, and the theorems are about that
  function, so that runs can be reasoned about as values.
* Hashes, clock readings, random draws, map iteration orders and verdicts of foreign
  code (`IsTerrible` thresholds excepted, which are modelled) are inputs of the
  operation that reads them.  Theorems hold for all of them.
* Written out are the 32-bit limbs, the 64-bit intermediates, the 32-bit product and
  the 32-bit flag size of the cuckoo set-up, the 16-bit indexes and the 64-bit shift
  of the difference coder, and the wrapping counters of compact blocks.  Other
  integers are unbounded.
* Null pointers are -1 in the block tree and `None` in the block slots.

## What the code does that its comments do not say

* `CheckAddrman` accepts some inconsistent managers: it compares only the recorded
  network counters and the number of networks, does not look for stale addresses in
  `mapAddr`, and does not bound ids by `nIdCount`.  `PassingMeansConsistent` gives
  the exact condition, `CheckMissesNetwork` a state.
* The branch of `ResolveCollisions_` for a slot that is no longer contested is never
  taken in a reachable state (`StillContested`).
* `AddCoin` has already reduced the memory total when it throws, so a cache is left
  with a wrong total; `Caches.AddCoin` states exactly when the cache stays valid.
* A spent FRESH entry, which the header allows, cannot arise, because the view below
  never returns a spent coin.
* `SpendCoin` reports success for an entry that is cached as already spent.
* The first location a cuckoo insert displaces is the second hash location, not the
  first as its comment says (`FirstDisplaced`).
* `AddCoins` without its lookup relies on its caller: an output that is unspent below
  the top cache is added as FRESH, and the stack is no longer sound.
* The cuckoo flags wrap for sizes from 2^32 - 7 on, and nothing is allocated
  (`FlagsCover`, `NoFlagsAtAll`).
* `GetLocator` computes a step that does not fit an int exactly from the height
  2^30 + 10 on; below 2^31 that step is not used (`LocatorStepsFit`,
  `LocatorOverflows`).
* After its commit and before its batch is written, the root database transaction does
  not show its own changes.
* `extra_count` wraps below zero exactly when the extra transactions empty more slots
  than they fill (`ExtraCountExact`, `ExtraCountWraps`).
* Division by zero clears the dividend before it throws.
* With a negative length limit `DecodeBase58` still accepts the empty result.
* `FillBlock` leaves already moved slots empty when it runs out of transactions.

## Model

| member | source | states |
|---|---|---|
| `AddrManPrimitives.CreateKeepsCore` | src/addrman.cpp:419-433 | creating an unknown address keeps all five indexes and the counters in step, with the new id unplaced |
| `AddrManPrimitives.SwapRandomKeepsCore` | src/addrman.cpp:435-457 | swapping two places of vRandom keeps positions and entries mutually inverse and changes nothing but places |
| `AddrManPrimitives.DeleteKeepsCore` | src/addrman.cpp:459-474 | deleting an unreferenced new entry removes exactly it from every index and counter |
| `AddrManPrimitives.ClearNewKeepsCore` | src/addrman.cpp:476-492 | emptying a new slot takes one reference from its entry, deletes the entry exactly when that was the last one, and leaves every other record alone |
| `AddrManPrimitives.AddRefKeepsCore` | src/addrman.cpp:613-616 | putting an id in a free slot of its own position keeps references and counts equal, up to eight |
| `AddrManPrimitives.DropAllRefsKeepsCore` | src/addrman.cpp:499-508 | removing every reference of an entry keeps all other slots and counts right |
| `AddrManPrimitives.DemoteKeepsCore` | src/addrman.cpp:526-529 | taking an entry out of its tried slot moves one unit of every counter back to new |
| `AddrManPrimitives.PromoteKeepsCore` | src/addrman.cpp:547-550 | an unreferenced new entry may take its own free tried slot; counters follow |
| `AddrManOps.Find` | src/addrman.cpp:406-417 | an address is found exactly when it is indexed, with the id whose record it is |
| `AddrManOps.EvictSpec` | src/addrman.cpp:519-544 | an evicted tried entry is a new entry with one reference at its primary slot; at most one other entry loses a reference there, and goes only with its last one |
| `AddrManOps.MakeTriedSpec` | src/addrman.cpp:494-551 | the promoted id sits in its tried slot and in no new slot, a displaced entry is back in the new table, and only an entry that lost its last reference to it is gone |
| `AddrManOps.PlaceSpec` | src/addrman.cpp:602-625 | no entry is left without a slot, and the result says whether the slot now holds the id anew |
| `AddrManAnswers.PlaceAnswer` | src/addrman.cpp:602-625 | the slot is taken exactly when it is free or its occupant is terrible, or has other references while the newcomer has none; one occupant loses one reference; otherwise nothing changes but that an entry without any slot is deleted |
| `AddrManAnswers.AddUnroutable` | src/addrman.cpp:558 | an address that is not routable changes nothing |
| `AddrManAnswers.AddUnknown` | src/addrman.cpp:553-626 | an unknown address is added if and only if its slot is free, or held by a terrible entry or by one with further references; its record, slot and time after the penalty are exact, and otherwise every table is as before |
| `AddrManAnswers.AddKnownAnswer` | src/addrman.cpp:567-626 | for a known address: the exact refreshed time and services; a reference is added if and only if it is not in tried, has fewer than eight, the announced time is newer, the draw below 2^references is zero and the slot gives way |
| `AddrManAnswers.ServicesJoined` | src/addrman.cpp:579 | a service is offered afterwards exactly if it was offered before or is announced |
| `AddrManAnswers.AddAllAnswer` | src/addrman.cpp:686-696 | a list is worked off in order; the result is positive exactly when one of its announcements was added |
| `AddrManAnswers.TerribleExactly` | src/addrman.cpp:67-92 | the exact bounds: never within a minute of a try; otherwise a time over ten minutes ahead or thirty days old, three failures without any success, or ten failures and no success in a week |
| `AddrManOps.AddSingleKeepsInv` | src/addrman.cpp:553-626 | announcing an address keeps the whole invariant and never touches the tried table |
| `AddrManOps.AddLosesOnlyTerrible` | src/addrman.cpp:604-624 | an entry that disappears when an address is added was terrible at that moment |
| `AddrManRuns.GoodSpec` | src/addrman.cpp:628-684 | the result is true exactly when the address was moved into its tried slot; with test-before-evict that slot was free, otherwise the tried table is untouched |
| `AddrManRuns.GoodRecords` | src/addrman.cpp:641-684 | the marked record has its last success and last try at the given time and no attempts; every other record keeps all its fields but place, table and reference count, and a displaced tried entry is still known |
| `AddrManRuns.GoodKeepsInv` | src/addrman.cpp:628-684 | Good keeps the indexes consistent and the collision set sound |
| `AddrManRuns.GoodCollisions` | src/addrman.cpp:662-674 | the collision set afterwards, exactly, for a call that tests before evicting: the id joins if and only if it is a new entry with a taken tried slot and fewer than ten ids wait |
| `AddrManAnswers.AttemptAnswer` | src/addrman.cpp:698-716 | exactly the last try is set, and the attempt counted if and only if asked for and none was counted since the last success was recorded |
| `AddrManAnswers.OneFailureCounts` | src/addrman.cpp:708-715 | a second failure without a success in between is not counted |
| `AddrManAnswers.ConnectedAnswer` | src/addrman.cpp:849-882 | the time moves only if it is over twenty minutes old, the services are replaced, and nothing else changes |
| `AddrManAnswers.ResolveOneAnswer` | src/addrman.cpp:899-955 | one candidate, exactly: it is forgotten if it is unknown or invalid or the occupant succeeded in the last four hours; else it moves in if the occupant was tried in the last four hours and more than a minute ago, or was not tried and the candidate has waited over forty minutes; otherwise it waits |
| `AddrManAnswers.EveryCandidateHasItsTurn` | src/addrman.cpp:895-956 | a pass resolves the smaller ids, then the candidate, then the larger ids |
| `AddrManRuns.AttemptKeepsInv` | src/addrman.cpp:698-716 | recording an attempt keeps the invariant |
| `AddrManRuns.ConnectedKeepsInv` | src/addrman.cpp:849-882 | updating time or services keeps the invariant |
| `AddrManRuns.ResolveOneKeepsInv` | src/addrman.cpp:895-956 | one iteration keeps the invariant and forgets its candidate unless it has to wait |
| `AddrManRuns.StillContested` | src/addrman.cpp:908-948 | the tried slot of a known candidate is taken, so the branch for a free one is dead |
| `AddrManRuns.ResolveKeepsInv` | src/addrman.cpp:895-956 | a whole pass keeps the invariant and adds no candidate |
| `AddrManRuns.ResolveOneSlots` | src/addrman.cpp:908-948 | one iteration changes the tried table only at its candidate's slot, and whoever moves in has succeeded at that iteration's clock reading |
| `AddrManRuns.OneTakeoverPerPass` | src/addrman.cpp:895-956 | in a pass shorter than four hours a contested tried slot changes hands at most once |
| `AddrManRuns.SelectReadsExisting` | src/addrman.cpp:958-984 | the entry read for a drawn candidate exists, is the tried entry holding the candidate's slot, and is not the candidate |
| `AddrManRuns.GetAddrSpec` | src/addrman.cpp:811-847 | the addresses returned are distinct, known, of the wanted network and not terrible, never more than the smaller of the two limits, and all that qualify when fewer are returned |
| `AddrManRuns.GetAddrKeepsInv` | src/addrman.cpp:811-847 | the partial shuffle keeps the invariant |
| `AddrManRuns.StepKeepsInv` | src/addrman.cpp:553-984 | every public operation keeps the invariant |
| `AddrManRuns.ReachableIsConsistent` | src/addrman.cpp:419-984 | every state reachable from empty is consistent: reference counts equal the slots held and lie in 1..8, tried ids fill exactly their slot, vRandom and positions are inverse, all counters match, and collisions are sound |
| `AddrManImpl.EveryRunPasses` | src/addrman.cpp:1046-1149 | from an empty manager no run of operations makes any test of CheckAddrman fail |
| `AddrManCheck.EntryCode` | src/addrman.cpp:1063-1090 | the code of the first failing per-entry test; zero exactly when all of them pass |
| `AddrManCheck.CheckEntries` | src/addrman.cpp:1060-1091 | the entry loop stops at a failing entry or has collected exactly the tried ids, the reference counts and the per-network counts |
| `AddrManCheck.CheckTried` | src/addrman.cpp:1098-1113 | scanning the tried table crosses off exactly its ids; nothing is left over if and only if each id is in its own slot |
| `AddrManCheck.CheckNew` | src/addrman.cpp:1115-1128 | scanning the new table pays off every reference; nothing is left over if and only if all counts and positions are right |
| `AddrManCheck.CheckNetworks` | src/addrman.cpp:1139-1146 | the network loop accepts exactly when no recorded counter differs and the number of networks agrees |
| `AddrManCheck.CheckAddrman` | src/addrman.cpp:1046-1149 | the check returns zero exactly on the states its tests describe, with a non-null key |
| `AddrManCheck.ConsistentPasses` | src/addrman.cpp:1046-1149 | a consistent manager passes its own check |
| `AddrManCheck.PassingMeansConsistent` | src/addrman.cpp:1046-1149 | a passing manager is consistent if and only if the three things the check does not look at are in order |
| `AddrManCheck.CheckMissesNetwork` | src/addrman.cpp:1139-1146 | a concrete state passes the check although the counter of its only network is missing |
| `AddrManImpl.AddrMan.constructor` | src/addrman.cpp:107-123 | a new manager is empty, with -1 in every slot |
| `AddrManImpl.AddrMan.SwapRandom` | src/addrman.cpp:435-457 | updates both places and both records in place as specified |
| `AddrManImpl.AddrMan.Delete` | src/addrman.cpp:459-474 | swaps the entry to the end of vRandom and drops it from every index as specified |
| `AddrManImpl.AddrMan.ClearNew` | src/addrman.cpp:476-492 | clears the slot and has the specified effect on its entry |
| `AddrManImpl.AddrMan.DropAllRefs` | src/addrman.cpp:499-512 | visiting one position per bucket from the entry's own bucket on finds every reference, so the count is zero afterwards |
| `AddrManImpl.AddrMan.Evict` | src/addrman.cpp:519-544 | moves the occupant of a tried slot back to the new table as specified |
| `AddrManImpl.AddrMan.MakeTried` | src/addrman.cpp:494-551 | the scan, the eviction and the promotion together have exactly the specified effect and the count assertion holds |
| `AddrManImpl.AddrMan.Create` | src/addrman.cpp:419-433 | creates a record under the next id as specified |
| `AddrManImpl.AddrMan.Place` | src/addrman.cpp:602-625 | the slot decision has exactly the effect that `PlaceAnswer` states |
| `AddrManImpl.AddrMan.AddSingle` | src/addrman.cpp:553-626 | one announcement has exactly the effect that `AddUnknown` and `AddKnownAnswer` state |
| `AddrManImpl.AddrMan.Add` | src/addrman.cpp:686-696 | a list of announcements is added one by one, as `AddAllAnswer` states; the result says whether any was |
| `AddrManImpl.AddrMan.Good` | src/addrman.cpp:628-684 | marks, defers or promotes exactly as `GoodSpec`, `GoodRecords` and `GoodCollisions` state |
| `AddrManImpl.AddrMan.Attempt` | src/addrman.cpp:698-716 | counts at most one attempt since the last success, as specified |
| `AddrManImpl.AddrMan.GetAddr` | src/addrman.cpp:811-847 | the loop draws without replacement and collects exactly the specified addresses |
| `AddrManImpl.AddrMan.Connected` | src/addrman.cpp:849-866 | updates the time only after twenty minutes |
| `AddrManImpl.AddrMan.SetServices` | src/addrman.cpp:868-882 | stores the service flags of a known address |
| `AddrManImpl.AddrMan.ResolveCollisions` | src/addrman.cpp:895-956 | a pass in ascending id order has exactly the specified effect while the set is edited |
| `AddrManImpl.AddrMan.ResolveOne` | src/addrman.cpp:899-955 | one candidate is judged and acted on as `ResolveOneAnswer` states |
| `AddrManImpl.AddrMan.SelectTriedCollision` | src/addrman.cpp:958-984 | forgets a vanished candidate, else returns the entry contesting it |
| `AddrManImpl.AddrMan.Perform` | src/addrman.cpp:419-984 | any run of public operations on the in-place tables is the specified run, and the check accepts the result |
| `AddrManSerialize.AllListedFacts` | src/addrman.cpp:192-209 | the two entry lists together hold every id once, new ones first |
| `AddrManSerialize.ListedSizes` | src/addrman.cpp:195-208 | the lists have exactly nNew and nTried entries, so neither counter assertion can fail |
| `AddrManSerialize.SizesFit` | src/addrman.cpp:273-285 | a consistent manager never exceeds the sizes the loader accepts |
| `AddrManSerialize.LoadRowsSpec` | src/addrman.cpp:353-381 | bucket by bucket each saved reference returns to its own slot |
| `AddrManSerialize.RoundTrip` | src/addrman.cpp:131-404 | loading what was saved under the same bucketing succeeds, loses no entry, and rebuilds both tables up to a renaming of ids; the result is consistent |
| `AddrManRebucket.ReferenceGoes` | src/addrman.cpp:353-381 | a saved reference goes to its own slot if bucketing is unchanged and that is free, else to the slot of its source if free, else nowhere; an invalid entry or one with eight references gets none |
| `AddrManRebucket.WinnerIsFirst` | src/addrman.cpp:353-381 | the winner of a slot is the first reference in reading order whose valid entry selects it |
| `AddrManRebucket.PruneRemovesOrphans` | src/addrman.cpp:384-393 | pruning removes exactly the new entries without a slot |
| `AddrManRebucket.RowsRebucket` | src/addrman.cpp:353-381 | without the old buckets every new slot belongs to its winner, which gets one reference, and every other entry none |
| `AddrManRebucket.TriedSettled` | src/addrman.cpp:299-319 | every tried slot belongs to the first valid saved entry that hashes to it; the others are lost |
| `AddrManRebucket.RebucketedLoad` | src/addrman.cpp:230-404 | any saved form with one entry per address, loaded under another bucketing: refused exactly when a list is too long, otherwise consistent, with every slot held by its winner and nothing else kept |
| `AddrManRebucket.RebucketedRoundTrip` | src/addrman.cpp:131-404 | saving a consistent manager and loading it under any other mapping: a tried entry survives if and only if it is valid and first for its slot, a new one if and only if it is valid and the first in table order to select its slot; all persistent fields are kept and each kept new entry sits in that slot with one reference |
| `AddrManStore.WriteEntries` | src/addrman.cpp:190-209 | the two entry loops write the listing in order and number it, within the asserted counter |
| `AddrManStore.WriteBuckets` | src/addrman.cpp:210-223 | the bucket loops write the indexes of every occupied slot in order |
| `AddrManStore.Store` | src/addrman.cpp:131-227 | the loops over maps and tables produce exactly the specified saved form |
| `AddrManStore.LoadNewEntries` | src/addrman.cpp:288-296 | the n-th saved new entry becomes id n in every index |
| `AddrManStore.LoadTriedOne` | src/addrman.cpp:301-317 | a tried entry is kept exactly when it is valid and its slot is free |
| `AddrManStore.LoadTriedEntries` | src/addrman.cpp:299-319 | tried entries follow in order; the lost ones are counted exactly |
| `AddrManStore.LoadOne` | src/addrman.cpp:353-381 | a reference has exactly the effect that `ReferenceGoes` spells out |
| `AddrManLoaded.DeleteIsSound` | src/addrman.cpp:459-474 | whatever was loaded, deleting an orphan keeps vRandom and positions inverse and leaves no stale address, id or uncounted network |
| `AddrManLoaded.LoadedIsConsistent` | src/addrman.cpp:230-404 | every saved form that loads, whatever it holds, gives a consistent manager, so runs may start from it |
| `AddrManStore.PruneOrphans` | src/addrman.cpp:384-393 | the pruning loop never violates the assertions of Delete, even on damaged data |
| `AddrManStore.Load` | src/addrman.cpp:230-404 | the loader in place has exactly the specified result, a thrown failure included, and what it loads satisfies the invariant of all runs |
| `AddrManStore.SaveAndLoad` | src/addrman.cpp:131-404 | saving a consistent manager and loading it into a fresh one reproduces it up to ids |
| `MapSums.SumWithout` | src/coins.cpp:325-340 | the memory totals are sums in which any entry can be taken first |
| `CoinsModel.FreshNotMisapplied` | src/coins.cpp:217-223 | a FRESH child entry never meets an unspent parent entry |
| `CoinsModel.WriteAll` | src/coins.cpp:182-252 | writing all of a child's changes keeps the parent's flags truthful and shows what both showed together |
| `CoinsModel.WrittenEntry` | src/coins.cpp:187-248 | FRESH is inherited from the parent's entry, or from the child's where there is none, and a spent FRESH outpoint leaves no entry |
| `CoinsModel.CleanedShows` | src/coins.cpp:267-282 | after a sync the kept entries are clean copies of the view below |
| `CoinsStack.WrongFreshRevives` | src/coins.h:111-126 | with a wrong FRESH flag a spent coin would show again |
| `CoinsStack.Caches.constructor` | src/coins.cpp:35-38 | one empty cache over a database shows the database |
| `CoinsStack.Caches.GetCoinAt` | src/coins.cpp:44-68 | looking up through any number of caches gives the plain map's answer and changes no view; this cache gains exactly a clean copy of what was found below |
| `CoinsStack.Caches.GetCoin` | src/coins.cpp:61-68 | the answer at the top is the plain map's |
| `CoinsStack.Caches.AddCoin` | src/coins.cpp:70-108 | the view gains the coin; the stack stays valid exactly when the no-overwrite claim was right, and the throwing path leaves the memory total wrong |
| `CoinsStack.Caches.SpendCoin` | src/coins.cpp:129-149 | the view loses the outpoint and nothing else, a FRESH entry is erased and any other becomes a dirty spent one; the coin handed out is the one that was shown |
| `CoinsStack.Caches.Uncache` | src/coins.cpp:284-297 | dropping a clean entry changes no view |
| `CoinsStack.Caches.BatchWrite` | src/coins.cpp:182-252 | every dirty child entry is merged into the parent, the total stays exact, and the misapplied-flag error is unreachable |
| `CoinsStack.Caches.DbWrite` | src/txdb.cpp:110-147 | the database takes dirty unspent entries and drops spent ones; an erasing write empties the child |
| `CoinsStack.Caches.Flush` | src/coins.cpp:254-265 | the level below now shows what the top showed, and the cache is empty |
| `CoinsStack.Caches.Sync` | src/coins.cpp:267-282 | the same, keeping the unspent entries clean |
| `CoinsStack.Caches.SanityCheck` | src/coins.cpp:325-340 | the check passes for every cache of a valid stack |
| `CoinsStack.Caches.AddCoins` | src/coins.cpp:118-127 | with the lookup, or for a coinbase, all spendable outputs appear and the stack stays valid; any other transaction stops at the first output the top cache holds unspent, and otherwise leaves a valid stack exactly when no spendable output was in the view |
| `CoinsStack.Caches.Run` | src/coins.cpp:44-297 | any allowed run on a stack of any depth is the run on plain maps, and every invariant holds after it |
| `CoinsStack.WriteEntry` | src/coins.cpp:187-248 | the case analysis for one entry computes the merged entry and the exact total |
| `CoinsStack.Clean` | src/coins.cpp:272-280 | the loop drops spent entries and clears flags, with the exact total |
| `CoinsStack.CheckLayer` | src/coins.cpp:325-340 | the recomputed total and the flag test succeed |
| `CheckQueue.BatchSize` | src/checkqueue.h:107-112 | a batch is never empty and never larger than the queue; `BatchIsFairShare` gives its size |
| `CheckQueue.BatchIsFairShare` | src/checkqueue.h:107-112 | a batch is the largest number within the batch limit that every active and idle thread plus one could also take, or one if that is none |
| `CheckQueue.SectionTakes` | src/checkqueue.h:77-121 | one critical section, exactly: results are merged, the master returns when nothing is left, an empty queue puts the thread to sleep, otherwise it takes its share from the back, to be evaluated only if nothing failed; only the worker reporting the last check touches another thread, the master |
| `CheckQueue.NotifyWakes` | src/checkqueue.h:181-185 | several checks wake every sleeping worker, one check wakes exactly one if any sleeps |
| `CheckQueue.TakeBatch` | src/checkqueue.h:113-119 | a batch is taken from the back of the queue, which keeps the rest |
| `CheckQueue.Execute` | src/checkqueue.h:123-127 | evaluation that stops at the first failure gives the conjunction of the whole batch |
| `CheckQueue.SectionKeepsInv` | src/checkqueue.h:77-121 | one critical section keeps the invariant and uses up work |
| `CheckQueue.AddKeepsInv` | src/checkqueue.h:166-179 | adding checks keeps the invariant |
| `CheckQueue.NotifyKeepsInv` | src/checkqueue.h:181-185 | waking one or all workers keeps the invariant |
| `CheckQueue.StepKeepsInv` | src/checkqueue.h:68-186 | every step of every thread keeps the invariant |
| `CheckQueue.ReachableInv` | src/checkqueue.h:68-186 | the invariant holds under every interleaving |
| `CheckQueue.TodoIsExact` | src/checkqueue.h:54-59 | nTodo counts exactly the checks queued or held in batches; nIdle and nTotal count the threads they name |
| `CheckQueue.WaitIsTheConjunction` | src/checkqueue.h:90-98 | Wait returns true exactly when every check added since the previous Wait evaluates to true |
| `CheckQueue.SleepingMasterIsAwaited` | src/checkqueue.h:79-102 | a master asleep without a signal faces an empty queue and a worker that holds checks |
| `CheckQueue.NeverStuck` | src/checkqueue.h:75-128 | while the master waits some thread can do real work |
| `CheckQueue.QueuedWorkIsAttended` | src/checkqueue.h:79-185 | while checks are queued some worker is not asleep, except between the unlock in Add and its notification |
| `CheckQueue.WorkIsBounded` | src/checkqueue.h:75-128 | in a run without calls of the master the work steps are at most the measure of the first state plus the spurious wakes |
| `CheckQueue.WaitReturns` | src/checkqueue.h:75-128 | a run without calls from inside Wait that cannot work on has brought the master back outside |
| `BitFlags.Flags.constructor` | src/cuckoocache.h:62-69 | all flags that have a byte start set; every flag has one exactly when the size is below 2^32 - 7 |
| `BitFlags.FlagsCover` | src/cuckoocache.h:62-69 | rounding up to bytes in 32 bits covers all flags exactly up to size 2^32 - 8 |
| `BitFlags.NoFlagsAtAll` | src/cuckoocache.h:62-69 | for every size from 2^32 - 7 on the sum wraps and no byte is allocated |
| `BitFlags.Flags.BitSet` | src/cuckoocache.h:92-95 | sets one flag and no other, although eight share a byte |
| `BitFlags.Flags.BitUnset` | src/cuckoocache.h:103-106 | clears one flag and no other |
| `CuckooCache.FastRange32` | src/util/fastrange.h:18-21 | a 32-bit hash h lands in slot h * n / 2^32, inside the table |
| `CuckooCache.LocsAre` | src/cuckoocache.h:239-249 | the eight locations are the eight hashes, each scaled to the table |
| `CuckooCache.PutKeepsTable` | src/cuckoocache.h:403-432 | putting an absent element in one of its slots keeps every element in exactly one of its own slots |
| `CuckooCache.FoundInLocs` | src/cuckoocache.h:466-476 | an element is stored if and only if one of its eight slots holds it |
| `CuckooCache.FirstDisplaced` | src/cuckoocache.h:412-427 | a new element first displaces the occupant of its second location |
| `CuckooCache.NextDisplaced` | src/cuckoocache.h:412-427 | a displaced element next displaces the occupant of the location after the one it came from, cyclically |
| `CuckooCache.InsertMeans` | src/cuckoocache.h:389-437 | an element already stored is refreshed; otherwise the first discardable location takes it, and if none is discardable the chain follows the locations up to the depth limit; the last element carried is the one lost |
| `CuckooCache.Cache.constructor` | src/cuckoocache.h:336-349 | an empty table; it is sound, with all slots discardable, exactly when its flags fit, that is below 2^32 - 7 elements |
| `CuckooCache.Cache.EpochCheck` | src/cuckoocache.h:285-317 | afterwards there is room for one more live element below the bound; slots change only when an epoch ends, and then exactly the old ones become discardable |
| `CuckooCache.Cache.CountLive` | src/cuckoocache.h:293-296 | counts the live slots of the current epoch |
| `CuckooCache.Cache.Age` | src/cuckoocache.h:302-307 | old-epoch slots become discardable, current ones old, nothing live remains |
| `CuckooCache.Cache.Contains` | src/cuckoocache.h:466-476 | true set membership; only the element's own slot may become discardable |
| `CuckooCache.Cache.InsertAged` | src/cuckoocache.h:392-436 | a stored element is refreshed, otherwise the chain `InsertMeans` describes is followed; it loses at most one element and raises the live count by at most one; when it ends in a free slot the lost element was already discardable |
| `CuckooCache.Cache.Insert` | src/cuckoocache.h:389-437 | the first discardable location holds the element, live and in the current epoch; if none is discardable the chain is followed; at most one element is lost, and when the element is placed the lost one was discardable or of the epoch that just ended |
| `CuckooCache.Cache.Run` | src/cuckoocache.h:285-476 | after any run live count plus countdown stay within epoch size plus max(1, epoch size / 16) and the table is sound |
| `BigUint.Add` | src/arith_uint256.h:127-137 | limb addition is addition modulo 2^(32n) with carries inside 64 bits, also when both operands are one object |
| `BigUint.Complement` | src/arith_uint256.h:61-67 | complement is 2^(32n) - 1 - x |
| `BigUint.Increment` | src/arith_uint256.h:165-172 | increment modulo 2^(32n) |
| `BigUint.Decrement` | src/arith_uint256.h:182-189 | decrement modulo 2^(32n) |
| `BigUint.Negate` | src/arith_uint256.h:69-76 | negation modulo 2^(32n) |
| `BigUint.Subtract` | src/arith_uint256.h:139-143 | subtraction modulo 2^(32n) |
| `BigUint.MulSmall` | src/arith_uint256.cpp:54-64 | multiplication by a 32-bit number modulo 2^(32n), carry inside a limb |
| `BigUint.AddRow` | src/arith_uint256.cpp:71-77 | one row of the schoolbook product, exactly, with what leaves the top |
| `BigUint.Multiply` | src/arith_uint256.cpp:66-80 | multiplication modulo 2^(32n) with no 64-bit overflow |
| `BigUint.CompareTo` | src/arith_uint256.cpp:108-118 | comparison agrees with the numbers, and is zero exactly for equal limbs |
| `BigShift.ShiftLeft` | src/arith_uint256.cpp:20-35 | multiplication by 2^k modulo 2^(32n) |
| `BigShift.ShiftRight` | src/arith_uint256.cpp:37-52 | division by 2^k, rounded down |
| `BigDivide.Bits` | src/arith_uint256.cpp:178-191 | the position of the highest set bit plus one, zero for zero |
| `BigDivide.DivideRound` | src/arith_uint256.cpp:97-104 | one round keeps dividend = rest + quotient * divisor |
| `BigDivide.Divide` | src/arith_uint256.cpp:82-106 | the shift-and-subtract loop returns the quotient rounded down for every non-zero divisor; a zero divisor is the error |
| `Compact.OverflowExact` | src/arith_uint256.cpp:211-214 | the three-way overflow test holds exactly when the denoted number needs more than 256 bits |
| `Compact.SetCompact` | src/arith_uint256.cpp:198-216 | the target is mantissa * 256^(exponent-3) rounded down, modulo 2^256; both flags are exact |
| `Compact.GetCompact` | src/arith_uint256.cpp:218-239 | exponent and mantissa are the normalised encoding, the sign bit is set only with a mantissa, and neither assertion can fail |
| `Compact.RoundsDown` | src/arith_uint256.cpp:218-239 | decoding an encoded number loses less than one part in 2^15 |
| `Compact.NearestBelow` | src/arith_uint256.h:252-273 | no other compact word denotes a number closer from below |
| `Compact.ReencodeIsStable` | src/arith_uint256.cpp:198-239 | encoding what was decoded gives the same word |
| `Compact.CompactRoundTrip` | src/arith_uint256.cpp:198-239 | the round trip yields the greatest representable number not above the original, and is idempotent |
| `Compact.EqualTo` | src/arith_uint256.cpp:120-132 | comparison with a 64-bit number |
| `Compact.TargetPlusOne` | src/chain.cpp:138-142 | no compact word denotes 2^256 - 1, so adding one to a target never wraps |
| `Compact.GetBlockProof` | src/chain.cpp:130-143 | the block proof is 2^256 / (target + 1) rounded down for every valid target and zero otherwise |
| `BlockTree.LowestOneGoes` | src/chain.cpp:78-79 | exactly the lowest one bit is cleared |
| `BlockTree.GetSkipHeight` | src/chain.cpp:81-90 | the skip height is a height below the block's own; `SkipHeightIs` says which |
| `BlockTree.SkipHeightIs` | src/chain.cpp:81-90 | an even height loses its lowest one bit; an odd one keeps its last bit and loses the two lowest one bits above it |
| `BlockTree.BlockMap.GetAncestor` | src/chain.cpp:92-117 | the skip walk ends at the block the parent walk ends at, or null outside the range |
| `BlockTree.BlockMap.BuildSkip` | src/chain.cpp:124-128 | only the block's skip pointer changes, to its ancestor at the skip height |
| `BlockTree.BlockMap.AddBlock` | src/node/blockstorage.cpp:97-114 | a new block is one above its parent and the tree stays sound |
| `BlockTree.BlockMap.LastCommonAncestor` | src/chain.cpp:164-179 | the highest block that is an ancestor of both, null only for unrelated blocks; the assertion holds |
| `BlockTree.ContainsIsAncestor` | src/chain.h:438-441 | a block is on the chain exactly when it is an ancestor of the tip |
| `BlockTree.ChainSurvives` | src/chain.h:406-410 | new blocks and skip pointers do not disturb an existing chain |
| `BlockTree.EarlyStop` | src/chain.cpp:24-28 | what the early-stopping loop has not written is already right |
| `BlockTree.Chain.SetTip` | src/chain.cpp:19-29 | the vector becomes exactly the path of the new tip |
| `BlockTree.SetTips` | src/chain.cpp:19-29 | after any sequence of tips the vector is the path of the last one |
| `BlockTree.Chain.GetLocator` | src/chain.cpp:31-57 | ancestors back to the root in steps that double after ten, by either lookup |
| `BlockTree.LocatorStepsFit` | src/chain.cpp:31-57 | every step computed fits an int if and only if the start height is at most 2^30 + 9; below height 2^31 every step that is used fits |
| `BlockTree.LocatorOverflows` | src/chain.cpp:52-53 | a chain of height 2^30 + 10 on which the step reaches 2^31 |
| `BlockTree.Chain.FindFork` | src/chain.cpp:59-68 | the highest block of the chain that is an ancestor of the given one |
| `Radix.MulAdd` | src/base58.cpp:100-113 | the in-place carry loop multiplies and adds exactly, uses up its carry when the result fits, and reports the minimal length |
| `Base58.EncodeFits` | src/base58.cpp:96-98 | 138/100 of the bytes plus one base58 digits always suffice |
| `Base58.DecodeFits` | src/base58.cpp:51-53 | 733/1000 of the characters plus one bytes always suffice |
| `Base58.TableInverse` | src/base58.cpp:17-36 | alphabet and table are inverse |
| `Base58.EncodeBase58` | src/base58.cpp:87-125 | one leading 1 per zero byte, then the number in base 58; no carry is left |
| `Base58.DecodeBase58` | src/base58.cpp:38-133 | accepts exactly symbol strings between spaces within the length limit and returns their bytes; no carry is left |
| `Base58.DecodeEncode` | src/base58.cpp:38-133 | decoding an encoding gives the bytes back, unless they exceed the limit |
| `Base58.EncodeDecode` | src/base58.cpp:38-133 | encoding what was decoded gives the string without surrounding spaces |
| `Base58.CheckRoundTrip` | src/base58.cpp:135-167 | a checked encoding decodes to the payload for any hash |
| `Base58.CheckSound` | src/base58.cpp:144-167 | an accepted string carries the checksum of its payload |
| `Bech32Checksum.StepLinear` | src/bech32.cpp:81-117 | the checksum step is linear over exclusive or |
| `Bech32Checksum.StepInjective` | src/bech32.cpp:81-117 | only the zero state goes to zero |
| `Bech32Checksum.PolyMod` | src/bech32.cpp:33-119 | the loop folds the step over the symbols |
| `Bech32Checksum.ChecksumVerifies` | src/bech32.cpp:153-165 | a created checksum verifies |
| `Bech32Checksum.ChecksumUnique` | src/bech32.cpp:142-165 | no other six symbols verify |
| `Bech32Checksum.BurstDetected` | src/bech32.cpp:33-119 | for any length, every change confined to six consecutive symbols changes the checksum |
| `Bech32.CharsetInverse` | src/bech32.cpp:15-28 | the two character tables are inverse |
| `Bech32.ExpandHRP` | src/bech32.cpp:127-140 | high bits, a zero and low bits of the human-readable part |
| `Bech32.ExpandedInjective` | src/bech32.cpp:127-140 | different human-readable parts give different checksum input |
| `Bech32.VerifyChecksum` | src/bech32.cpp:142-151 | true exactly for sequences whose remainder is one |
| `Bech32.CreateChecksum` | src/bech32.cpp:153-165 | the six groups of the corrected remainder |
| `Bech32.Encode` | src/bech32.cpp:172-186 | human-readable part, separator, symbols and checksum |
| `Bech32.CheckCharacters` | src/bech32.cpp:190-197 | accepts printable characters of one case |
| `Bech32.Decode` | src/bech32.cpp:188-220 | accepts exactly framed symbol strings with a valid checksum |
| `Bech32.DecodeEncode` | src/bech32.cpp:172-220 | decoding inverts encoding for valid lower-case prefixes up to 90 characters |
| `Bech32.EncodeDecode` | src/bech32.cpp:172-220 | encoding what was decoded gives the string in lower case |
| `Bech32.BurstRejected` | src/bech32.cpp:142-151 | a change confined to six consecutive data symbols never verifies |
| `Bech32.BurstRefused` | src/bech32.cpp:188-220 | a string with such a change is refused while its separator is in place |
| `Gf1024.TimesE` | src/bech32.cpp:63-69 | the table of the element is multiplication by a root of x^2 + 9x + 23 over GF(32) |
| `Gf1024.FixedIsZero` | src/bech32.cpp:62-78 | no power of the element below 1023 fixes a non-zero field element: its order is 1023 |
| `Bech32Errors.RootOfGenerator` | src/bech32.cpp:40-78 | the generator vanishes at the 997th, 998th and 999th power of the element |
| `Bech32Errors.FoldValue` | src/bech32.cpp:81-117 | the state keeps the value of everything read at each of these roots |
| `Bech32Errors.ThreeErrorsDetected` | src/bech32.cpp:42-45 | two sequences of at most 1023 symbols that differ in one to three places never have the same remainder |
| `Bech32.ErrorsRejected` | src/bech32.cpp:142-151 | one to three wrong data symbols never verify, up to 1023 symbols |
| `Bech32.ErrorsRefused` | src/bech32.cpp:188-220 | a string with one to three changed data characters is refused while its separator is in place |
| `DbLayers.WrittenOk` | src/dbwrapper.h:598-612 | a write keeps writes and deletes disjoint and memoryUsage the exact sum |
| `DbLayers.ErasedOk` | src/dbwrapper.h:660-669 | an erase keeps writes and deletes disjoint and memoryUsage the exact sum |
| `DbLayers.Transactions.constructor` | src/dbwrapper.h:591-591 | no transaction, the store is shown |
| `DbLayers.Transactions.Write` | src/dbwrapper.h:598-612 | the view of the transaction gains the key; levels below are unchanged |
| `DbLayers.Transactions.Erase` | src/dbwrapper.h:660-669 | the view loses the key; levels below are unchanged |
| `DbLayers.Transactions.Read` | src/dbwrapper.h:619-636 | the answer of the overlaid map, or the exception exactly when the deciding pending write has another type |
| `DbLayers.Transactions.Exists` | src/dbwrapper.h:643-653 | membership in the overlaid map |
| `DbLayers.Transactions.Clear` | src/dbwrapper.h:671-675 | the transaction shows its parent again |
| `DbLayers.Transactions.Commit` | src/dbwrapper.h:677-685 | the target, a parent transaction or the batch of the store, gains exactly the changes of the transaction, which is then empty |
| `DbLayers.Transactions.GetMemoryUsage` | src/dbwrapper.h:691-702 | the exact sum; the branch for a negative total is dead |
| `DbLayers.Transactions.Run` | src/dbwrapper.h:591-685 | any run with nesting is the run on plain maps |
| `DbLayers.Transactions.CommitRoot` | src/evo/evodb.cpp:54-62 | the store takes over what the root showed and every transaction shows what it showed |
| `DbIterator.LessTotal` | src/dbwrapper.h:545-554 | byte-string comparison is total |
| `DbIterator.MergeComplete` | src/dbwrapper.h:423-428 | merging yields exactly the keys of (parent minus deletes) and writes, in order |
| `DbIterator.Iter.Valid` | src/dbwrapper.h:442-444 | true exactly when keys remain |
| `DbIterator.Iter.GetKey` | src/dbwrapper.h:476-485 | the smallest remaining key |
| `DbIterator.Iter.DecideCur` | src/dbwrapper.h:521-533 | the smaller of the two current keys is chosen |
| `DbIterator.Iter.Skip` | src/dbwrapper.h:511-519 | hidden parent keys are passed over and nothing else |
| `DbIterator.Iter.Next` | src/dbwrapper.h:446-459 | exactly one key is consumed, at any nesting depth |
| `DbIterator.Iter.SeekToFirst` | src/dbwrapper.h:423-428 | all keys of the level are to come |
| `DbIterator.Iter.Seek` | src/dbwrapper.h:435-440 | all keys from the given one on are to come |
| `DbIterator.Iter.GetValue` | src/dbwrapper.h:498-508 | the overlaid value of the current key, or the type exception of Read |
| `DbIterator.Iter.Walk` | src/dbwrapper.h:397-534 | a whole walk visits every key of the overlaid map once, in order |
| `CompactBlocks.BuildCompact` | src/blockencodings.cpp:21-31 | the message describes the block: the coinbase prefilled, the short ids of the rest in order |
| `CompactBlocks.PlacedFree` | src/blockencodings.cpp:61-77 | as many slots stay empty as there are short ids |
| `CompactBlocks.PartialBlock.PlacePrefilled` | src/blockencodings.cpp:61-77 | every write is in bounds; accepted exactly when each prefilled transaction is non-null and within range, and a refusal leaves those before the bad one in place |
| `CompactBlocks.PartialBlock.NextFree` | src/blockencodings.cpp:86-87 | the next free slot exists and is the one of the k-th short id |
| `CompactBlocks.PartialBlock.MapShortIds` | src/blockencodings.cpp:83-105 | the k-th short id maps to the k-th slot without a prefilled transaction; equal ids are reported |
| `CompactBlocks.PartialBlock.MatchPool` | src/blockencodings.cpp:107-134 | the loop with its early exit is the specified scan; prefilled slots stay and mempool_count is the number of filled slots |
| `CompactBlocks.PartialBlock.MatchExtra` | src/blockencodings.cpp:136-165 | the same for the extra transactions with their hash comparison; extra_count moves with mempool_count, modulo 2^64 |
| `CompactBlocks.PoolOutcome` | src/blockencodings.cpp:107-134 | of the mempool transactions looked at, a sole one with a slot's short id fills it and several leave it empty |
| `CompactBlocks.SlotOutcome` | src/blockencodings.cpp:107-165 | a slot ends filled if and only if it was claimed, at most once from the mempool, and all its claimants have one hash |
| `CompactBlocks.EarlyExit` | src/blockencodings.cpp:126-164 | a loop that leaves candidates unread has filled every slot |
| `CompactBlocks.ExtraCountExact` | src/blockencodings.cpp:136-165 | extra_count is what the extra transactions add to mempool_count if and only if they empty no more slots than they fill |
| `CompactBlocks.ExtraCountWraps` | src/blockencodings.cpp:136-165 | a message, a mempool and an extra transaction for which extra_count is 2^64 - 1 |
| `CompactBlocks.PartialBlock.InitData` | src/blockencodings.cpp:51-170 | the status is exact for every message; a good one leaves the slots and counts of the two specified scans, a refused one the prefilled transactions placed so far |
| `CompactBlocks.PartialBlock.FillBlock` | src/blockencodings.cpp:178-210 | invalid exactly when the number of missing transactions is wrong; otherwise the assembled list |
| `CompactBlocks.FilledAreOwn` | src/blockencodings.cpp:107-165 | if no foreign candidate shares the short id of a slot it could fill, every filled slot holds the block's own transaction |
| `CompactBlocks.FillRebuilds` | src/blockencodings.cpp:184-192 | with the missing transactions in order the list is the original one |
| `CompactBlocks.PartialBlock.Reconstruct` | src/blockencodings.cpp:51-210 | message, matching and filling together give the block back |
| `CompactBlocks.DifferenceFormatter.Ser` | src/blockencodings.h:23-28 | an index is written as its distance, or refused when it does not increase |
| `CompactBlocks.DifferenceFormatter.Unser` | src/blockencodings.h:30-36 | the sum is returned exactly when it neither wraps nor exceeds the type |
| `CompactBlocks.SerAll` | src/blockencodings.h:23-28 | a list can be written exactly when it is strictly increasing, and the differences sum back to it |
| `CompactBlocks.UnserAll` | src/blockencodings.h:30-36 | reading gives the running sums exactly when they fit sixteen bits |
| `CompactBlocks.SumsInjective` | src/blockencodings.h:16-37 | differences are determined by their sums, so reading and writing are inverse |

## Left out

- `Select_` and `GetChance` of the address manager: the draw loop ends only with probability one and weighs by floating point.
- Raw field codecs, older file formats and the key in `Serialize`/`Unserialize`: entries are saved field by field without loss, the key is part of the hashing input and taken to be non-null.
- AddrManStore.LoadTriedEntries: counts tried entries up as they are kept where the source starts from the total and subtracts the lost ones; the final counter is the same.
- AddrManStore.Load: places references while it reads them where the source first collects them in a list; the order of placing is the same.
- `nIdCount` wrap-around after 2^31 addresses.
- `EmplaceCoinInternalDANGER`, best-block bookkeeping, the pool allocator and the error-catching view of the coin caches.
- CoinsStack.Caches.Run: covers callers that claim "no overwrite" only for outpoints not shown as unspent; `AddCoin` itself states what happens otherwise.
- Stop requests and thread start-up of the check queue, and the memory model: a critical section is one step.
- The `log2` in the cuckoo set-up is a parameter, and its flags are not accessed concurrently.
- `getdouble`, hexadecimal input and output and the bitwise operators of `base_uint`.
- `FindEarliestAtLeast`, `GetBlockProofEquivalentTime` and the status and time fields of a block index entry.
- Detection of four scattered errors within 89 symbols by the Bech32 checksum, a property of the one code that was selected; one to three errors are covered.
- Bech32.BurstRefused: says nothing about a change that writes a new separator into the data part, since that moves the boundary of the human-readable part.
- Bech32.ErrorsRefused: covers the data part only, with the same exception; for a changed human-readable part `ThreeErrorsDetected` speaks of the expanded symbols.
- DbLayers.Transactions.Read: reading stored bytes under another type than they were written with, which depends on their serialization.
- Failures of the database itself, and writing a coin batch in pieces.
- BlockTree.BlockMap.GetAncestor: says which block is found, not in how many steps.
- BlockTree.Chain.GetLocator: the step is unbounded, where an int overflows from the height 2^30 + 10 on, as `LocatorStepsFit` says.
- DbIterator.Iter.Walk: transactions do not change while an iterator is in use, as the source requires.
- CompactBlocks.PartialBlock.InitData: the hash-table crowding test is an input.
- CompactBlocks.PartialBlock.FillBlock: the verdict of `CheckBlock` is an input.
- RPC, networking, wallet, masternode, mining and configuration code.
