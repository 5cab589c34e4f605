# Verified models of the node's core algorithms

This project models the algorithms of a Bitcoin-derived node that its other
parts rely on, and proves what they promise. Each module follows one component.

- `Coins`: the stack of coin caches above the database. Reading, adding, spending and flushing with the FRESH and DIRTY flags gives what plain coin maps would give.
- `CoinsLaws`: what the FRESH flag saves.
- `CheckQueue`: the parallel verification queue as a state machine over its critical sections. The master's verdict covers every check, and it is reached after a bounded number of steps.
- `PartialMerkle`: merkle branches as in BIP 37. A proof with the right root is genuine, and building and extracting are inverse.
- `MerkleProofs`: exactly which of them are accepted.
- `AddrTables`, `AddrMan`, `AddrManager`: the address manager. All its tables agree after every operation.
- `AddrLaws`: what it remembers of attempts, failures and successes.
- `AddrCheck`: its own consistency check decides that agreement.
- `AddrStore`, `AddrReload`, `AddrRoundTrip`: saving and loading it.
- `Miner`: block assembly by ancestor packages: what enters, in which order, and why the selection ends.
- `CuckooCache`, `CuckooTable`, `CuckooLaws`: the signature cache with displacement and ageing, and what an insertion stores or loses.
- `SkipHeights`, `Chain`: block index, skip list, active chain, locators and forks.
- `Limbs`, `LimbShifts`, `LongDivision`, `BaseUint`: 256-bit numbers on 32-bit limbs.
- `Compact`, `ProofOfWork`: compact targets, block work and the difficulty rules.
- `Retargeting`: how the target follows the time that the blocks took.
- `Radix`, `Base58`, `Ascii`: base 58 strings, with and without checksum.
- `BoolExpr`, `BoolLanguage`: the boolean expression evaluator, and exactly which texts it accepts.
- `RollingBloom`: the rolling bloom filter on its two-bit cells.
- `CompactBlock`, `CompactMatch`: compact block reconstruction as in BIP 152, what fills each slot, and the index coding.
- `NetFraming`: cutting the incoming byte stream into messages.
- `Arithmetic`: powers, remainders and bits used by the others.

A component that the program updates in place is a class with the same fields
and loops. Its methods are proved equal to functions on values, and the
properties are lemmas about those functions. Hash functions, clocks, random
draws and the database are parameters, so every result holds for any of them.
Where a result needs a hash without collisions it says so.

## What the code does differently from its comments or from what one expects

- `AddCoin` without `possible_overwrite` on a coin that exists below the cache marks it FRESH wrongly, and spending it later brings the old coin back (`Coins.MisappliedFreshResurrects`). `Coins.AddKeepsFlagsIff` gives the exact condition.
- When `AddCoin` throws, the memory count has already been reduced (`Coins.CoinsViewCache.AddCoin`). `SpendCoin` reports success for an entry that is cached as spent. The FRESH branch of `FetchCoin` cannot be reached.
- `Add_` reports a new address even if it is deleted again at once (`AddrMan.AddUnknown`).
- `Good_` at time 0 and `Attempt_` at a negative time leave tables that `Check_` refuses (`AddrMan.GoodInvIff`, `AddrMan.AttemptInvIff`).
- `Check_` enters a missing address with id 0 while it looks for it, so that of entry 0 passes, and does not notice addresses without an entry (`AddrCheck.DanglingUnseen`). `AddrManager.AddrMan.Check` and `AddrCheck.SeenExactly` say exactly what it tests.
- `UpdatePackagesForAdded` subtracts modified fees the first time and base fees later, so the bonus of prioritised ancestors can stay in a descendant's fees (`Miner.BonusStays`). `Miner.FeesExactly` gives the exact condition for every record of a run.
- Indexes decoded from a request can wrap from 65535 to 0 (`CompactBlock.WrappedIndexes`). `CompactBlock.DecodedIncreasing` gives the exact condition.
- `InitData` does not return on a well-formed message with 65536 prefilled transactions and a short id (`CompactBlock.EndlessMessage`, `CompactBlock.EndlessExactly`). With more than 65536 slots the positions of short ids wrap (`CompactBlock.OwnSlotsExactly`, `CompactBlock.CountsExactly`).
- The boolean evaluator passes over anything but names, `!` and parentheses before several terms or factors, where its documentation says that nothing else is a formula (`BoolLanguage.JunkAccepted`). `BoolLanguage.AcceptedExactly` gives the accepted texts.
- The cuckoo cache first displaces the element at the second place, where a comment says the first (`CuckooLaws.SecondPlaceFirst`).
- `x *= x` gives 0 (`BaseUint.Uint.TimesAssign`).
- The remark that at most 2N - 1 bits are written for N stored hashes does not hold when the last node of a level of odd width has a match below it (`PartialMerkle.BitsExceed`, `PartialMerkle.BitsExactly`).

## Model

| member | source | states |
|---|---|---|
| `Coins.RunRefines` | src/coins.cpp:50-494 | Over every sequence of cache operations, on a stack of any number of caches above the database, the view of each layer is the one obtained by the same lookups, updates and removals on plain coin maps; no step throws and the flags stay sound, provided `possible_overwrite` is not denied for a coin that exists |
| `Coins.StepRefines` | src/coins.cpp:50-494 | One operation at any layer of the stack changes the layers' coin maps exactly as the specification step does |
| `Coins.AddKeepsFlagsIff` | src/coins.cpp:76-95 | Adding without `possible_overwrite` succeeds with sound FRESH and DIRTY flags if and only if the view has no coin there |
| `Coins.MisappliedFreshResurrects` | src/coins.cpp:83-93 | On any sound stack, adding without `possible_overwrite` over a coin of the view throws if it is cached here, and otherwise succeeds; spending the added coin then brings the old one back and the view is as before |
| `Coins.AddRefinesUpdate` | src/coins.cpp:76-95 | An allowed addition updates the one coin in the view and keeps the flags sound; an unspendable coin changes nothing |
| `Coins.SpendRefinesRemoval` | src/coins.cpp:359-378 | Spending removes exactly that coin from the view, and returns the coin the view had |
| `Coins.GetRefinesLookup` | src/coins.cpp:50-74 | Fetching fills the caches on the way without changing any layer's coins and returns the coin of the view |
| `Coins.UncacheRefinesSkip` | src/coins.cpp:487-494 | An entry without flags is removed, any other stays, and no coin of any view changes |
| `Coins.MergeIsOverlay` | src/coins.cpp:424-478 | Merging a child cache into its parent gives the same coins as reading through both, never finds a misapplied FRESH flag and keeps the flags sound, for the optimisations on FRESH included |
| `Coins.WriteDbIsOverlay` | src/txdb.cpp:116-127 | Writing the dirty entries to the database gives the coins seen through the cache |
| `Coins.FlushRefinesCopy` | src/coins.cpp:480-485 | Flushing makes the layer below equal to the view and leaves the view as it was |
| `Coins.AddUsage` | src/coins.cpp:83-94 | A successful addition keeps the memory count equal to the total of the entries' usage |
| `Coins.CoinsViewCache.OverDb` | src/coins.cpp:44 | A cache over the database starts empty |
| `Coins.CoinsViewCache.OverCache` | src/coins.cpp:44 | A cache over a cache starts empty |
| `Coins.CoinsViewCache.FetchCoin` | src/coins.cpp:50-65 | The whole stack of caches becomes the one that the refinement lemmas are about, and the coin is returned |
| `Coins.CoinsViewCache.GetCoin` | src/coins.cpp:67-74 | Likewise, with spent coins reported as missing |
| `Coins.CoinsViewCache.AddCoin` | src/coins.cpp:76-95 | Throws exactly when a live entry would be replaced without permission; otherwise the new cache is the specified one |
| `Coins.CoinsViewCache.SpendCoin` | src/coins.cpp:359-378 | New cache, result and moved-out coin are the specified ones |
| `Coins.CoinsViewCache.UncacheCoin` | src/coins.cpp:487-494 | The new cache is the specified one |
| `Coins.CoinsViewCache.MergeEntry` | src/coins.cpp:426-472 | One child entry: throws exactly when FRESH is misapplied, else the merge of that entry and its usage |
| `Coins.CoinsViewCache.BatchWriteFrom` | src/coins.cpp:424-478 | The loop over the child in any order gives the merge as one function, or throws |
| `Coins.CoinsViewCache.FlushCache` | src/coins.cpp:480-485 | Cannot throw on a sound stack; the layer below receives the merge, in batches if it is the database, and this cache is empty |
| `Coins.CoinsDb.BatchWrite` | src/txdb.cpp:91-150 | The entries are visited in some order, each once; whichever visits fill a batch, the states on disk are exactly those of `Batches` for that order, one per full batch, and then the new best block with the coins of the one write function |
| `Coins.BatchesUnfinished` | src/txdb.cpp:109-131 | Before, after and between the partial batches, for any order and any cutting, the disk is untouched or marked as in transition from the old tip to the new block, with each coin as before or as after |
| `Coins.Replays` | src/txdb.cpp:99-114 | From any state in which a write can be interrupted, writing the same cache again is allowed, ends with the same coins, and still knows the old tip |
| `CoinsLaws.RunLean` | src/coins.cpp:359-478 | Over every run on any stack, no cache keeps an entry for a coin that is spent and unknown below it |
| `CoinsLaws.Created` | src/coins.cpp:76-95 | A coin created above a cache and flushed into it is FRESH there |
| `CoinsLaws.CreatedAndSpent` | src/coins.cpp:429-458 | If it is then spent above and flushed again, the cache has no entry for it: nothing reaches the layers below |
| `CheckQueue.StepInv` | src/checkqueue.h:70-162 | Every critical section, check execution, wake-up and addition of any thread keeps the queue invariant: nTodo counts the checks queued or in batches, the checks added are those finished, queued or held, nTotal and nIdle count threads, and the verdict so far is right |
| `CheckQueue.RunInv` | src/checkqueue.h:70-162 | The invariant holds in every state of every run |
| `CheckQueue.WaitReturnsVerdict` | src/checkqueue.h:93-100 | Whenever the master returns, its result says whether all checks added were good, all have been finished or skipped, and no thread holds a batch |
| `CheckQueue.BlockedMasterHasWorker` | src/checkqueue.h:92-105 | A master that waits without a pending wake-up has a worker that is still working |
| `CheckQueue.NoDeadlock` | src/checkqueue.h:77-127 | While the master is inside Wait, some thread can take a step that needs no spurious wake-up and lowers the measure of work and unsettled threads |
| `CheckQueue.StepFalls` | src/checkqueue.h:70-127 | While the master is inside Wait, every step of any thread lowers that measure or changes nothing; only a wake-up without cause, or a worker that joins while the pool is being left, changes nothing |
| `CheckQueue.WaitBounded` | src/checkqueue.h:70-127 | In every run, the number of state changes while the master stays inside Wait is at most the rank of the state in which it is found there, so Wait returns |
| `CheckQueue.BatchSizeBound` | src/checkqueue.h:106-118 | The batch size is between 1 and the queue length, so popping never underruns |
| `CheckQueue.BatchSizeFair` | src/checkqueue.h:106-111 | A batch of more than one check is within nBatchSize, leaves as much for every other sharer, and is as large as that allows |
| `CheckQueue.AddInv` | src/checkqueue.h:150-162 | Adding checks accounts for each of them once, whichever worker is woken |
| `CheckQueue.FinishInv` | src/checkqueue.h:81-86 | Finishing a batch takes it off the accounts once and wakes the master exactly at zero |
| `PartialMerkle.Soundness` | src/merkleblock.cpp:134-165 | For any bits and hashes, if extraction returns the merkle root of a block then every reported hash and index is that of a transaction of the block (for a collision-free hash) |
| `MerkleProofs.AcceptedExactly` | src/merkleblock.cpp:80-165 | For any bits and hashes: extraction returns the merkle root of a block if and only if they are what a walk over the tree of the block writes, with at most a started byte of padding, and the walk opens no node with two equal children |
| `MerkleProofs.WalkAccepted` | src/merkleblock.cpp:80-165 | Then it returns the leaves that the walk marks |
| `MerkleProofs.ReadWritten` | src/merkleblock.cpp:80-116 | For every subtree: what a walk wrote is read back to the hash and the marked leaves, used to the last bit and hash, and bad exactly if an opened node has equal children |
| `PartialMerkle.ExtractSound` | src/merkleblock.cpp:80-116 | The same for every subtree, with the positions it spans |
| `PartialMerkle.RoundTripPadded` | src/merkleblock.cpp:118-165 | Extraction from the built tree, with the padding bits of the wire format, returns the root and exactly the matched transactions in order |
| `PartialMerkle.ExpectedMeaning` | src/merkleblock.cpp:94-97 | The expected result lists the matched positions, all of them, with their hashes |
| `PartialMerkle.BuildSize` | src/merkleblock.cpp:62-78 | At most one hash per transaction, no more hashes than bits, and at most height hashes per match and one more: the limits that extraction checks |
| `PartialMerkle.BitsCount` | src/merkleblock.cpp:62-78 | The bits written are twice the hashes less one, and one more for every traversed node with a single child |
| `PartialMerkle.BitsExactly` | src/merkleblock.h:44-48 | At most 2N - 1 bits are written for N stored hashes if and only if no level of odd width has a match below its last node |
| `PartialMerkle.BitsExceed` | src/merkleblock.h:44-48 | Five transactions with only the last one matched need more |
| `PartialMerkle.WidthIsExists` | src/merkleblock.h:66-69 | A node exists exactly if its first leaf does |
| `PartialMerkle.Pack` | src/merkleblock.h:101-104 | Bit p of the list is bit p modulo 8 of byte p / 8, and the padding is zero |
| `PartialMerkle.Unpack` | src/merkleblock.h:94-98 | The bits of the bytes, lowest first |
| `PartialMerkle.PartialMerkleTree.constructor` | src/merkleblock.cpp:118-130 | The object holds the encoding that the round trip is about |
| `PartialMerkle.PartialMerkleTree.FromWire` | src/merkleblock.h:93-99 | The object holds the received hashes and the unpacked bits |
| `PartialMerkle.PartialMerkleTree.ComputeHeight` | src/merkleblock.cpp:123-126 | The loop finds the height of the tree |
| `PartialMerkle.PartialMerkleTree.ParentOfMatch` | src/merkleblock.cpp:63-66 | The loop decides whether the subtree has a match, stopping at the last transaction |
| `PartialMerkle.PartialMerkleTree.TraverseAndBuild` | src/merkleblock.cpp:62-78 | Appends the encoding of the subtree |
| `PartialMerkle.PartialMerkleTree.TraverseAndExtract` | src/merkleblock.cpp:80-116 | Consumes the encoding of the subtree and sets fBad as specified, for any data |
| `PartialMerkle.PartialMerkleTree.ExtractMatches` | src/merkleblock.cpp:134-165 | Root and matches are the specified ones, the null hash on any of the refusals; the list of matches is cleared first, while the indexes are appended to the caller's list |
| `PartialMerkle.RoundTrip` | src/merkleblock.h:88-106 | Building, packing, unpacking and extracting returns the root and the matches |
| `AddrMan.StepInv` | src/addrman.cpp:89-527 | Every operation keeps the agreement of all tables that Check_ demands, for positive times in Good_ and times that are not negative in Attempt_ |
| `AddrMan.Run` | src/addrman.cpp:89-527 | Every sequence of operations from the cleared state ends in tables that agree |
| `AddrMan.MakeTriedInv` | src/addrman.cpp:150-196 | Moving an entry to the tried table keeps the agreement, with an eviction and a displaced new entry included |
| `AddrMan.MakeTriedMoves` | src/addrman.cpp:150-196 | Exactly which cells change, which entry moves back and which one at most is forgotten |
| `AddrMan.GoodInv` | src/addrman.cpp:198-248 | Good_ keeps the agreement for every positive time |
| `AddrMan.GoodInvIff` | src/addrman.cpp:198-248 | For times that are not negative, Good_ keeps the agreement if and only if the time is not 0 or the address is unknown |
| `AddrMan.AttemptInvIff` | src/addrman.cpp:323-343 | Attempt_ keeps the agreement if and only if the time is not negative or the address is unknown |
| `AddrMan.NewEntryHasBucket` | src/addrman.cpp:227-242 | A consistent new entry is in some bucket, so the search for one succeeds and the early return is dead |
| `AddrMan.AddInv` | src/addrman.cpp:250-321 | Add_ keeps the agreement on every path |
| `AddrMan.AddUnknown` | src/addrman.cpp:292-320 | An unknown address is always reported as new; it stays exactly if its cell can be taken, and is forgotten again otherwise; no other entry changes but in its references |
| `AddrMan.AddKnown` | src/addrman.cpp:264-320 | A known address is never reported as new. It gets the announced services. It gets another cell and reference exactly if the announcement is later than its time, it is not tried, has fewer than eight references and wins the draw, and the cell is free or holds another terrible entry; otherwise the new table stays. Only the entry displaced can be forgotten, and no other entry changes but in its references |
| `AddrMan.AddKnownTime` | src/addrman.cpp:259-269 | Its time moves only forward, to the announced one less the penalty, if that is later by more than an hour, or a day for an announcement a day old, or if it had none |
| `AddrLaws.TrialsCounted` | src/addrman.cpp:198-343 | Over every run in which an untried entry stays in the tables, its counter is the number of its failures that count since its last success, and the time of that success is recorded |
| `AddrLaws.TerribleAfter` | src/addrman.cpp:34-52 | Three such failures without a success make it terrible, and ten since a success more than a week ago, once a minute has passed since the last try; fewer than three do not, if it was seen in the last 30 days |
| `AddrLaws.StepTrials` | src/addrman.cpp:198-343 | What any operation records of an entry, whether it moves, is evicted or displaces others: only a success, a failure that counts or an attempt on it changes its record |
| `AddrLaws.LastGoodIs` | src/addrman.cpp:198-202 | The time that decides whether a failure counts is that of the last success of any address, known or not |
| `AddrLaws.AddedUntried` | src/addrman.cpp:292-313 | An address that was just added is untried |
| `AddrLaws.GoodMoves` | src/addrman.cpp:198-248 | A success of a known address that was new puts it into its tried cell, and the entry that was there is in the new table again; one that was tried stays; an unknown address changes no table |
| `AddrLaws.SeenAndServices` | src/addrman.cpp:491-527 | A connection moves the time of a known entry if it is more than 20 minutes later; its services become those set; nothing else changes |
| `AddrLaws.ShufflePicks` | src/addrman.cpp:477-483 | In each round of GetAddr_ the id at the drawn position comes to the front part and stays there; no id is lost |
| `AddrMan.StatsStepInv` | src/addrman.cpp:323-343 | Attempt_, Connected_ and SetServices_ keep the agreement |
| `AddrMan.ShuffleInv` | src/addrman.cpp:470-489 | The swaps of GetAddr_ keep the agreement, whatever is drawn |
| `AddrMan.ClearedInv` | src/addrman.h:457-478 | The cleared tables agree |
| `AddrTables.SwapRandomInv` | src/addrman.cpp:101-119 | Swapping two positions keeps ids and positions inverse to each other |
| `AddrTables.DeleteInv` | src/addrman.cpp:121-133 | Deleting an unreferenced entry removes it from every index |
| `AddrTables.ClearNewInv` | src/addrman.cpp:135-148 | Clearing a cell keeps the agreement |
| `AddrTables.ClearNewEffect` | src/addrman.cpp:135-148 | Only the entry in the cell can be forgotten, and only if this was its last cell |
| `AddrTables.CreateInv` | src/addrman.cpp:89-99 | A created entry is in every index and in no table yet |
| `AddrManager.AddrMan.SwapRandom` | src/addrman.cpp:101-119 | Updates in place as the table function does |
| `AddrManager.AddrMan.Delete` | src/addrman.cpp:121-133 | Updates in place as the table function does |
| `AddrManager.AddrMan.ClearNew` | src/addrman.cpp:135-148 | Updates in place as the table function does |
| `AddrManager.AddrMan.StripFromNew` | src/addrman.cpp:152-159 | The loop over all buckets removes exactly the entry's references |
| `AddrManager.AddrMan.MakeTried` | src/addrman.cpp:150-196 | Updates in place as specified |
| `AddrManager.AddrMan.FindBucket` | src/addrman.cpp:227-242 | The search from a random start always finds a bucket that holds the entry |
| `AddrManager.AddrMan.Good` | src/addrman.cpp:198-248 | The tables are the specified ones for every time that is not negative and every random start, and stay valid for positive times |
| `AddrManager.AddrMan.Place` | src/addrman.cpp:299-319 | Takes, keeps or refuses the cell as specified |
| `AddrManager.AddrMan.Add` | src/addrman.cpp:250-321 | The tables stay valid; tables and result are those of `AddUnknown` and `AddKnown`, for every random draw |
| `AddrManager.AddrMan.Attempt` | src/addrman.cpp:323-343 | The tables are the specified ones and stay valid, for times that are not negative |
| `AddrManager.AddrMan.GetAddr` | src/addrman.cpp:470-489 | Reports the addresses of the drawn ids that are not terrible, within the quota, and stops only when the quota or the ids are used up |
| `AddrManager.PresentableDistinct` | src/addrman.cpp:470-489 | No address is reported twice |
| `AddrManager.AddrMan.Check` | src/addrman.cpp:393-467 | Check_ returns 0 if and only if the key is not null and the tables as it sees them agree; then it has entered the address of entry 0 if that was missing and changed nothing else. Valid tables are left alone |
| `AddrManager.AddrMan.CheckAll` | src/addrman.cpp:398-462 | The same for all tests but that of the key |
| `AddrCheck.SeenExactly` | src/addrman.cpp:401-425 | Tables agree if and only if they do as Check_ sees them, every address has its entry, and entry 0 has its address |
| `AddrCheck.DanglingUnseen` | src/addrman.cpp:417 | Any further address in consistent tables is invisible to Check_, and the tables no longer agree |
| `AddrManager.AddrMan.CheckEntry` | src/addrman.cpp:401-426 | The tests on one entry pass if and only if the entry is right and its address leads to it, or is missing and the entry is number 0; a missing address is entered with id 0 |
| `AddrManager.AddrMan.CheckTried` | src/addrman.cpp:434-447 | The loop over the tried table passes consistent tables and otherwise only tables whose cells are right |
| `AddrManager.AddrMan.CheckNew` | src/addrman.cpp:449-460 | The loop over the new table counts every reference down to its entry |
| `AddrCheck.PositionsCover` | src/addrman.cpp:398-421 | As many positions as entries and each entry at its own: every position is taken |
| `AddrCheck.Passed` | src/addrman.cpp:393-467 | The tests together imply the agreement of all tables |
| `AddrRoundTrip.RoundTrip` | src/addrman.h:301-455 | Writing any consistent tables and reading them back loses no entry: both bucket tables, all entries, reference counts and counters are as before once ids are renumbered, and the tables agree again |
| `AddrReload.RebuildInv` | src/addrman.h:352-455 | Any stream without repeated addresses and with sensible times, its positions usable or not, is rebuilt to tables that agree |
| `AddrStore.ParseItems` | src/addrman.h:301-385 | Reading follows the counts to exactly the content that was written |
| `AddrRoundTrip.SavedSound` | src/addrman.h:317-334 | What is written has no repeated address, sensible times, and counts within the limits of reading |
| `AddrRoundTrip.SavedNoCollisions` | src/addrman.h:402-418 | No two written tried entries want the same cell, so none is lost |
| `AddrRoundTrip.RowsRestore` | src/addrman.h:421-437 | Reading the rows puts every reference back into its own cell |
| `AddrRoundTrip.NothingPruned` | src/addrman.h:439-449 | After reading back, no entry is without a reference |
| `AddrReload.PruneInv` | src/addrman.h:439-449 | Deleting the entries in neither table keeps the agreement |
| `AddrManager.AddrMan.Serialize` | src/addrman.h:301-349 | The loops write the content specified; the two assertions on the counts never fail |
| `AddrManager.AddrMan.Unserialize` | src/addrman.h:352-455 | Fails exactly on malformed streams; otherwise the tables are the rebuilt ones, for every stream |
| `AddrManager.AddrMan.ReadNew` | src/addrman.h:380-398 | Reads the announced entries or fails if they are not there |
| `AddrManager.AddrMan.ReadTried` | src/addrman.h:400-419 | Reads the tried entries, dropping and uncounting those whose cell is taken |
| `AddrManager.AddrMan.ReadPositions` | src/addrman.h:421-437 | Reads every row, placing the references that fit |
| `AddrManager.AddrMan.Reopen` | src/addrman.h:301-455 | Saving and loading succeeds and gives a valid manager, the same up to ids |
| `Miner.BlockAssembler.AddPackageTxs` | src/miner.cpp:350-478 | The block stays valid: ancestors before descendants, no duplicates, counters and lists right, weight and sigops within the limits. It grew by packages, one for each counted: every transaction of them may enter, and when it was taken the package was what remained of its last transaction, fitted, paid at least the minimum for its recorded size, and none on offer ranked above it. The loop ends for one of three reasons, and the reason is proved of the final block: every transaction is in it or was refused for a cause that still holds; or the package considered pays too little and none on offer, with the totals recorded for it, ranks above it, where every other transaction outside was refused; or the block is nearly full and more than 1000 transactions outside, by the cached totals of their packages, do not fit |
| `Miner.BlockAssembler.Advance` | src/miner.cpp:371-477 | One round of the loop: an entry is passed over, or the selection stops for a reason that holds, or a package is considered and, if included, is the next pick |
| `Miner.RightChoice` | src/miner.cpp:380-422 | The package considered is on offer with its recorded totals, none on offer ranks above it, and every other transaction outside the block was refused |
| `Miner.BlockAssembler.Choose` | src/miner.cpp:380-404 | The package considered is the next one of the pool or one of the modified set, and none of the modified set ranks above it |
| `Miner.ChosenBest` | src/miner.cpp:419-422 | Everything else that might be considered does not rank above it, as the comment at the early return says |
| `Miner.FeeRateRanks` | src/miner.h:74-84 | The comparison of fee rates without rounding, with the hash to break ties, is a strict weak order, as the selection demands of its comparison |
| `Miner.BlockAssembler.Round` | src/miner.cpp:406-477 | One round keeps the block, the records and the list of packages too big since the last inclusion |
| `Miner.CorrectedOk` | src/miner.cpp:287-312 | After adding a package, the corrected size and sigops of every other package again cover what remains of it |
| `Miner.FeesExactly` | src/miner.cpp:300-308 | In every state of the selection, for a transaction outside the block that was not refused before: the recorded size and sigops are those of what remains of its package; the recorded fees exceed the modified fees of what remains by the bonus of its ancestors in the block, not counting the one with which the record was made, so they are right if and only if that bonus is zero in total |
| `Miner.RecordsKept` | src/miner.cpp:287-312 | Every correction keeps what `FeesExactly` says of the records |
| `Miner.CorrectedFees` | src/miner.cpp:300-308 | One correction subtracts the modified fees of the added ancestors, but for the bonus of all of them if the descendant was in the modified set, and of all but one otherwise |
| `Miner.UnprioritisedFees` | src/miner.cpp:300-308 | The recorded fees are those of what remains if no ancestor in the block was prioritised |
| `Miner.BonusStays` | src/miner.cpp:300-308 | On a valid pool of three transactions, the package that ranks first enters the empty block, and the last transaction, which pays 1, is recorded with fees of 11 |
| `Miner.BlockFits` | src/miner.cpp:243-251 | A package that passes the test keeps the block within the weight limit and strictly below the sigop limit |
| `Miner.AppendOrdered` | src/miner.cpp:463-471 | Appending a package in sorted order keeps every ancestor before its descendants |
| `Miner.AncestorBefore` | src/miner.cpp:329-338 | Sorting by ancestor count puts ancestors first |
| `Miner.InsertSorted` | src/miner.cpp:329-338 | Insertion keeps the order and adds just the one element |
| `Miner.CounterSums` | src/miner.cpp:268-284 | Weight and sigops are the reserved amount and the sum over the block |
| `Miner.CounterLists` | src/miner.cpp:268-284 | The fee and sigop lists match the transactions one by one, and the fees add up to nFees |
| `Miner.NothingLeftOut` | src/miner.cpp:371-458 | Every transaction of an exhausted pool is in the block or rejected |
| `Miner.StillRejected` | src/miner.cpp:424-440 | A refusal stays justified as the block grows |
| `Miner.TurnedDown` | src/miner.cpp:424-458 | Refusing a package keeps the selection consistent |
| `Miner.TakenIn` | src/miner.cpp:460-477 | Including a package keeps the selection consistent |
| `Miner.BlockAssembler.constructor` | src/miner.cpp:80-119 | The weight limit is the option within its bounds, the counters hold the reserved amounts, and the parameters are kept |
| `Miner.BlockAssembler.AddToBlock` | src/miner.cpp:268-284 | Appends the transaction and keeps every counter and list right |
| `Miner.BlockAssembler.SortForBlock` | src/miner.cpp:329-338 | The package in sorted order, nothing lost or added |
| `Miner.BlockAssembler.UpdatePackagesForAdded` | src/miner.cpp:287-312 | Each descendant not added loses the added ancestors from its size, sigops and fees, once each; the fees as `CorrectedFees` tells |
| `Miner.BlockAssembler.IncludePackage` | src/miner.cpp:460-477 | The block grows by the package and the modified set is corrected |
| `Miner.BlockAssembler.Consider` | src/miner.cpp:406-477 | A package is included only if it fits and all of what remains of it may enter, and then just that is appended; otherwise the block stays and the transaction is refused for a cause that still holds |
| `CuckooCache.RunInv` | src/cuckoocache.h:289-477 | Over every sequence of insertions and lookups, every kept element is at one of its eight places and at most the bounded number of slots is young |
| `CuckooCache.InsertInv` | src/cuckoocache.h:392-440 | Insertion keeps the invariant; the elements kept and the one dropped are those that ageing left and the new one |
| `CuckooLaws.Stored` | src/cuckoocache.h:392-415 | After ageing, an element that is at one of its places, or has a place that may be overwritten, is stored: nothing is lost and it is found |
| `CuckooLaws.LostAfterRounds` | src/cuckoocache.h:406-440 | An element is lost only if the new one was at none of its places and in depth_limit rounds all eight places of the element in hand were kept; each round exchanges it for one at its own places |
| `CuckooLaws.ChainRounds` | src/cuckoocache.h:406-440 | Otherwise the element in hand found a free place after fewer rounds |
| `CuckooLaws.FirstStored` | src/cuckoocache.h:340-440 | The first insertion after setup is stored and is all that is kept |
| `CuckooLaws.MovesOn` | src/cuckoocache.h:416-430 | The element just put in is not moved again at once, if the places of the one in hand differ |
| `CuckooLaws.SecondPlaceFirst` | src/cuckoocache.h:418-430 | The first element displaced is the one at the second place |
| `CuckooCache.ChainConserves` | src/cuckoocache.h:406-439 | The displacement chain neither loses nor invents an element but for the last one |
| `CuckooCache.ChainPlaced` | src/cuckoocache.h:406-439 | Each displaced element moves to another of its own places |
| `CuckooCache.EpochCheckInv` | src/cuckoocache.h:289-321 | Ageing marks only old slots, and young slots stay within the bound |
| `CuckooLaws.AgesExactly` | src/cuckoocache.h:289-321 | Slots are freed exactly when the counter has run out and the epoch is full; then just the slots of the old epoch; the counter does not run out again before the epoch can be full |
| `CuckooCache.AgeingForgets` | src/cuckoocache.h:301-311 | An element is forgotten by ageing only if all its slots are of the old epoch |
| `CuckooCache.AgeingSpares` | src/cuckoocache.h:280-321 | Over every run of at most an epoch of insertions, an element in a young slot, or whose counter lasts that long, is still found unless it is erased or dropped by a full chain |
| `CuckooCache.LiveIsFound` | src/cuckoocache.h:467-477 | A kept element is always found |
| `CuckooCache.FoundWasInserted` | src/cuckoocache.h:340-477 | No false positives: after every run from setup a lookup finds only what was inserted in the run, what the table held before setup, or the value that fills new slots |
| `CuckooCache.LookupsAgree` | src/cuckoocache.h:445-477 | Until an insertion, lookups with and without erasure change no answer |
| `CuckooCache.ContainsInv` | src/cuckoocache.h:467-477 | A lookup keeps the invariant and can only mark the element itself |
| `CuckooLaws.EraseReleases` | src/cuckoocache.h:457-477 | After every run of a new cache, a lookup with erasure that finds an element allows exactly its slot to be overwritten, and exactly this element is no longer kept |
| `CuckooLaws.RunUnique` | src/cuckoocache.h:392-440 | Over every run, each element but the fill value is in the table at most once, at one of its places |
| `CuckooCache.LocIs` | src/cuckoocache.h:243-253 | A place is the high word of the product of hash and size, and in range |
| `CuckooCache.SetupInv` | src/cuckoocache.h:340-353 | After setup the invariant holds and nothing is kept; the 32-bit product for the epoch size wraps as in the code |
| `CuckooLaws.SetupSizes` | src/cuckoocache.h:340-353 | The size is at least 2 and an epoch is 45 percent of it, while the product fits in 32 bits |
| `CuckooCache.BitPackedFlags.Setup` | src/cuckoocache.h:79-84 | All flags are set |
| `CuckooCache.BitPackedFlags.BitSet` | src/cuckoocache.h:92-95 | Sets that flag and no other |
| `CuckooCache.BitPackedFlags.BitUnset` | src/cuckoocache.h:103-106 | Clears that flag and no other |
| `CuckooCache.BitPackedFlags.BitIsSet` | src/cuckoocache.h:113-116 | Reads the flag |
| `CuckooTable.Cache.Setup` | src/cuckoocache.h:340-353 | The object is the specified table |
| `CuckooTable.Cache.EpochCheck` | src/cuckoocache.h:289-321 | The object changes as specified, with the cheap counter and the full scan |
| `CuckooTable.Cache.Insert` | src/cuckoocache.h:392-440 | The loops over places and depth change the object, and lose an element, as `Stored` and `LostAfterRounds` tell |
| `CuckooTable.Cache.Contains` | src/cuckoocache.h:467-477 | Result and flags are the specified ones |
| `Chain.BlockIndex.GetAncestor` | src/chain.cpp:84-108 | The walk over skip pointers finds the same ancestor as following pprev, and null exactly out of range; with all skip pointers built it takes the number of rounds that `HopsBound` limits |
| `Chain.BlockIndex.BuildSkip` | src/chain.cpp:115-119 | The skip pointer is the ancestor at the skip height, and a branch with all skip pointers stays one |
| `SkipHeights.InvertsLowestOne` | src/chain.cpp:71 | n & (n - 1) removes the lowest set bit |
| `SkipHeights.HopsBound` | src/chain.cpp:74-108 | Between any two heights below 2^k the walk takes at most k (k + 2) rounds |
| `SkipHeights.EvenCloser` | src/chain.cpp:90-107 | From an even height one round lowers the highest bit in which the heights differ, or what is left to do before that |
| `SkipHeights.OddCloser` | src/chain.cpp:90-107 | Likewise from an odd height |
| `Chain.WalkThrough` | src/chain.cpp:84-108 | Ancestors of ancestors are ancestors |
| `Chain.LastCommonAncestor` | src/chain.cpp:155-170 | The result is the highest block both descend from |
| `Chain.CChain.SetTip` | src/chain.cpp:12-22 | The array becomes the whole path to the tip, though the loop stops early |
| `Chain.CChain.FindFork` | src/chain.cpp:52-61 | The highest block of the chain that the given block descends from |
| `Chain.CChain.GetLocator` | src/chain.cpp:24-50 | Starts at the block, ends at the genesis block, and steps back as prescribed whether or not the block is on the chain |
| `Chain.LocatorDescends` | src/chain.cpp:24-50 | Heights fall strictly |
| `Chain.LocatorFalls` | src/chain.cpp:37-46 | An entry above the genesis block is below the start by the step at its place less one; steps double after the first ten |
| `Chain.LocatorSize` | src/chain.cpp:24-50 | At most k + 12 entries below height 2^k, and at most 101 in all |
| `Chain.CChain.ContainsBranch` | src/chain.h:493-496 | Contains decides membership, and a contained block has its whole branch contained |
| `Chain.CChain.NextIsChild` | src/chain.h:498-504 | Next is null exactly off the chain or at the tip, and else the child on the chain |
| `Chain.CChain.AtIsWalk` | src/chain.h:480-485 | The entry at a height is the tip's ancestor at that height |
| `Limbs.AddVal` | src/arith_uint256.h:142-152 | Limb addition with carries is addition modulo 2^BITS |
| `Limbs.SubVal` | src/arith_uint256.h:154-158 | Adding the complement plus one is subtraction modulo 2^BITS |
| `Limbs.NotVal` | src/arith_uint256.h:76-82 | The complement is 2^BITS - 1 minus the value |
| `Limbs.MulWordVal` | src/arith_uint256.cpp:59-69 | Multiplication by a word modulo 2^BITS |
| `Limbs.MulVal` | src/arith_uint256.cpp:71-84 | Long multiplication of limbs is multiplication modulo 2^BITS |
| `LimbShifts.ShlVal` | src/arith_uint256.cpp:25-39 | Limb shifting left is multiplication by a power of two modulo 2^BITS |
| `LimbShifts.ShrVal` | src/arith_uint256.cpp:42-56 | Limb shifting right is the quotient by a power of two |
| `LimbShifts.BitLengthUnique` | src/arith_uint256.cpp:175-187 | A value has one bit length |
| `BaseUint.Uint.PlusAssign` | src/arith_uint256.h:142-152 | The loop adds modulo 2^BITS, also with itself |
| `BaseUint.Uint.MinusAssign` | src/arith_uint256.h:154-158 | Subtracts modulo 2^BITS, also from itself |
| `BaseUint.Uint.Increment` | src/arith_uint256.h:180-187 | Adds one, the carry stopping at the first limb that does not wrap |
| `BaseUint.Uint.Decrement` | src/arith_uint256.h:197-204 | Subtracts one, the borrow stopping at the first limb that does not wrap |
| `BaseUint.Uint.TimesWord` | src/arith_uint256.cpp:59-69 | Multiplies by a word modulo 2^BITS |
| `BaseUint.Uint.TimesAssign` | src/arith_uint256.cpp:71-84 | Multiplies modulo 2^BITS by another object; `x *= x` gives 0, since the factor is cleared before it is read |
| `BaseUint.Uint.ShlAssign` | src/arith_uint256.cpp:25-39 | Multiplies by 2^shift modulo 2^BITS, for every shift |
| `BaseUint.Uint.ShrAssign` | src/arith_uint256.cpp:42-56 | Quotient by 2^shift, for every shift |
| `BaseUint.Uint.DivAssign` | src/arith_uint256.cpp:87-110 | Throws exactly for divisor 0; otherwise the result is the quotient, also with itself |
| `BaseUint.Uint.CompareTo` | src/arith_uint256.cpp:113-122 | The sign of the comparison of the values |
| `BaseUint.Uint.EqualTo` | src/arith_uint256.cpp:125-136 | Equality with a 64-bit number |
| `BaseUint.Uint.Bits` | src/arith_uint256.cpp:175-187 | The bit length of the value, 0 for 0 |
| `BaseUint.Uint.GetLow64` | src/arith_uint256.h:252-256 | The value modulo 2^64 |
| `LongDivision.DivisionTakes` | src/arith_uint256.cpp:100-108 | Taking the shifted divisor off and setting the bit keeps dividend = quotient * divisor + remainder |
| `LongDivision.DivisionEnds` | src/arith_uint256.cpp:100-110 | At the end the remainder is below the divisor, so the bits set are the quotient |
| `Compact.RoundTrip` | src/arith_uint256.cpp:207-248 | Decoding an encoded value gives the value rounded down, neither negative nor overflowing |
| `Compact.SignRoundTrip` | src/arith_uint256.cpp:207-248 | With the sign given, it comes back as well, but for 0 |
| `Compact.Loss` | src/arith_uint256.cpp:227-248 | Rounding loses less than one part in 2^15, and nothing below 2^23 |
| `Compact.RoundedMonotone` | src/arith_uint256.cpp:227-248 | Encoding keeps the order of targets |
| `Compact.OverflowExact` | src/arith_uint256.cpp:217-222 | The overflow flag says exactly that the value does not fit |
| `Compact.DecodedValue` | src/arith_uint256.cpp:207-216 | Without overflow the value is mantissa times a power of 256 |
| `Compact.SetCompact` | src/arith_uint256.cpp:207-223 | Value and flags are the decoded ones |
| `Compact.GetCompact` | src/arith_uint256.cpp:227-248 | The word is the encoded one |
| `Compact.GetBlockProof` | src/chain.cpp:121-134 | The work is the floor of 2^256 / (target + 1), computed without wrapping, and 0 for an invalid target |
| `Compact.WorkMeans` | src/chain.cpp:121-134 | The work times the target plus one is as near to 2^256 from below as it can be, and 0 for a target that is not valid; a smaller target is never less work |
| `Compact.TargetBelowTop` | src/chain.cpp:121-134 | A decoded target is at most 2^256 - 2, so adding one does not wrap |
| `ProofOfWork.ChainSound` | src/pow.cpp:18-180 | In every chain that follows the rule from a sound first block, every nBits decodes without sign or overflow to a target not above the limit |
| `ProofOfWork.NextSound` | src/pow.cpp:140-155 | The next required target is sound on every branch of the rule |
| `ProofOfWork.DgwSound` | src/pow.cpp:18-102 | Dark gravity wave yields a sound target |
| `ProofOfWork.IntervalSound` | src/pow.cpp:104-138 | The interval rule yields a sound target |
| `ProofOfWork.AverageBetween` | src/pow.cpp:50-58 | If no target of the window times its length and one more reaches 2^256, the running average is that of unbounded numbers and lies between the smallest and the largest target |
| `ProofOfWork.WindowExact` | src/pow.cpp:48-99 | For parameters with 20 bits of room, as those of the main and test networks have, and sound targets, dark gravity wave computes in 256 bits what it would in unbounded numbers; average and new target lie within the window's targets, up to the factor of three or the limit |
| `ProofOfWork.ChainExact` | src/pow.cpp:18-102 | So it is at every height of every chain that follows the rule |
| `ProofOfWork.IntervalExact` | src/pow.cpp:157-180 | The interval rule does not wrap either, and changes the target at most fourfold |
| `ProofOfWork.RetargetBounded` | src/pow.cpp:84-99 | The new target grows at most by the factor and never above the limit |
| `ProofOfWork.RetargetFloor` | src/pow.cpp:84-99 | The new target shrinks at most by the factor, if the planned time is a multiple of it, or is the limit |
| `ProofOfWork.PastAverage` | src/pow.cpp:48-69 | The loop over past blocks computes the average and the number of KAWPOW blocks |
| `ProofOfWork.ComputeDarkGravityWave` | src/pow.cpp:18-102 | The loops and early returns compute the target that `Retargeting.DgwFollows` is about |
| `ProofOfWork.ComputeNextWork` | src/pow.cpp:157-180 | The limb arithmetic computes the target that `Retargeting.IntervalFollows` is about |
| `ProofOfWork.ComputeByInterval` | src/pow.cpp:104-138 | The rule of intervals with its first block and the rule of test networks |
| `ProofOfWork.ComputeNextWorkRequired` | src/pow.cpp:140-155 | The rule is chosen by height |
| `Retargeting.RetargetScales` | src/pow.cpp:84-99 | In plain arithmetic: within the range the target is multiplied by the time taken over the time planned and rounded down, at most the limit; outside it is multiplied or divided by the factor; after the planned time it is as before |
| `Retargeting.DgwFollows` | src/pow.cpp:18-102 | The next block carries, up to the precision of the encoding, the average of the window scaled in this way by the time from its first to its last block, with factor 3 |
| `Retargeting.WindowScales` | src/pow.cpp:47-99 | The same before encoding; a window that took the planned time gives its average |
| `Retargeting.WindowMonotone` | src/pow.cpp:84-99 | Of two branches with the same targets the one that took longer never gets the smaller target |
| `Retargeting.AverageWeights` | src/pow.cpp:51-58 | The average is the weighted mean in which the last target counts twice, less a rounding below n |
| `Retargeting.DgwShort` | src/pow.cpp:26-29 | The limit while the chain is short |
| `Retargeting.DgwYoung` | src/pow.cpp:71-80 | The limit of the newer proof of work until every block of the window was mined with it |
| `Retargeting.DgwSpecial` | src/pow.cpp:31-45 | On a test network that does not retarget: the limit for a late block, and else the target of the last block that is the first of an interval or not at the limit |
| `Retargeting.IntervalFollows` | src/pow.cpp:131-180 | Once per interval the last target is scaled by the time from the first to the last block of the interval, with factor 4 |
| `Retargeting.IntervalMonotone` | src/pow.cpp:162-177 | A longer interval never makes it smaller |
| `Retargeting.IntervalStays` | src/pow.cpp:109-129 | Between intervals it stays, but for the rule of test networks |
| `ProofOfWork.BackToRegular` | src/pow.cpp:121-125 | The loop finds the last target that is not a minimum-difficulty one |
| `BoolExpr.ResolveCorrect` | src/LibBoolEE.cpp:70-146 | For every text of the grammar and valuation, however spaced and with what the splitting passes over, the evaluator returns the value of the expression |
| `BoolLanguage.AcceptedExactly` | src/LibBoolEE.cpp:19-146 | For every string: the evaluator succeeds if and only if the string, white space aside, is a text of the grammar with known names |
| `BoolLanguage.Understood` | src/LibBoolEE.cpp:74-146 | A text on which the evaluator succeeds is that of an expression, found by undoing its splits |
| `BoolLanguage.JunkAccepted` | src/LibBoolEE.cpp:33-38 | An operator before a disjunction is accepted and has no effect |
| `BoolExpr.ParseExpr` | src/LibBoolEE.cpp:19-68 | Splitting a printed disjunction at its top level gives its terms, whatever junk is before it |
| `BoolExpr.ParseTerm` | src/LibBoolEE.cpp:19-68 | A term, with or without junk, is not split at \|, and at & into its factors |
| `BoolExpr.ScanShorter` | src/LibBoolEE.cpp:19-68 | The parts are shorter than the formula, or it is a single part: the recursion ends |
| `BoolExpr.ResolveFront` | src/LibBoolEE.cpp:130-145 | The accumulated result over all parts is the disjunction or conjunction of the first part and the rest |
| `BoolExpr.SingleParseLoop` | src/LibBoolEE.cpp:19-68 | The loop splits as specified, errors included |
| `BoolExpr.RemoveWhitespacesLoop` | src/LibBoolEE.cpp:158-166 | The loop drops the white space |
| `BoolExpr.Evaluate` | src/LibBoolEE.cpp:70-72 | The result is the specified one, errors included |
| `BoolExpr.EvaluateRec` | src/LibBoolEE.cpp:74-146 | The result is the specified one on every string |
| `Base58.DecodeEncode` | src/base58.cpp:22-110 | Decoding an encoding returns the bytes |
| `Base58.EncodeDecode` | src/base58.cpp:22-110 | A string that decodes is, without the spaces at its ends, the encoding of its bytes |
| `Base58.DecodesExactly` | src/base58.cpp:22-70 | A string decodes if and only if there are only characters of the alphabet between the spaces at its ends |
| `Base58.SameBytes` | src/base58.cpp:22-70 | Two strings decode to the same bytes if and only if they differ in those spaces only |
| `Base58.CheckRoundTrip` | src/base58.cpp:122-146 | The checksummed form decodes to the bytes |
| `Base58.CheckUnique` | src/base58.cpp:122-146 | A checksummed string that decodes is, without the spaces at its ends, the one that encodes its bytes |
| `Base58.AlphabetIs` | src/base58.cpp:19-20 | Letters and digits but for 0, O, I and l are digits, with values in the order of the characters |
| `Base58.EncodeBase58` | src/base58.cpp:72-110 | The in-place conversion computes the encoding; the estimated buffer is always large enough |
| `Base58.DecodeBase58` | src/base58.cpp:22-70 | The in-place conversion computes the decoding, refusing exactly what is not a digit |
| `Base58.PushInPlace` | src/base58.cpp:85-98 | One pass over the buffer multiplies by the base and adds the digit |
| `Radix.Estimate58` | src/base58.cpp:82 | 138/100 base 58 digits and one more hold any byte string |
| `Radix.Estimate256` | src/base58.cpp:35 | 733/1000 bytes and one more hold any base 58 string |
| `Radix.CanonUnique` | src/base58.cpp:22-110 | Digits without a leading zero are determined by their number |
| `Radix.PushNum` | src/base58.cpp:85-98 | The digit pass computes number times factor plus carry |
| `RollingBloom.Window` | src/bloom.cpp:249-297 | Each of the last N insertions is always reported |
| `RollingBloom.ContainedExactly` | src/bloom.cpp:249-297 | A key is reported if and only if each of its cells was written in the last three generations |
| `RollingBloom.RunTracks` | src/bloom.cpp:249-277 | Over every run a cell tells the generation that last wrote it, or nothing once that is too old |
| `RollingBloom.RecentContained` | src/bloom.cpp:249-297 | Any insertion within two full generations is reported |
| `RollingBloom.WipeCell` | src/bloom.cpp:257-266 | The word-wide mask clears exactly the cells of the new generation |
| `RollingBloom.WriteCell` | src/bloom.cpp:268-276 | Two bit writes store a generation in one cell and no other |
| `RollingBloom.RollingBloomFilter.constructor` | src/bloom.cpp:217-242 | An empty filter of the given size |
| `RollingBloom.RollingBloomFilter.Reset` | src/bloom.cpp:305-313 | Empties the filter |
| `RollingBloom.RollingBloomFilter.InsertKey` | src/bloom.cpp:249-277 | The loops over words and hashes insert as specified |
| `RollingBloom.RollingBloomFilter.ContainsKey` | src/bloom.cpp:285-297 | The result is the specified one |
| `CompactBlock.MadeCompactReconstructs` | src/blockencodings.cpp:19-199 | A block announced by this node is reconstructed exactly from any pool, if no pool transaction has the short id of another block transaction |
| `CompactMatch.SlotsDecided` | src/blockencodings.cpp:105-164 | For an accepted message of at most 65536 slots: the mempool is scanned up to the first position at which every slot is full, then the extra transactions likewise, and each slot holds what the scanned candidates decide: the only match of the mempool, or else the first extra one, unless a second one of the mempool or an extra one with another hash matches; prefilled slots stay |
| `CompactMatch.OneCandidate` | src/blockencodings.cpp:105-164 | If one candidate of both pools has the short id of a slot, the slot holds it; if none has, it is empty |
| `CompactMatch.TwoCandidates` | src/blockencodings.cpp:117-125 | If two of the mempool have it and the scan was not ended early, it is empty |
| `CompactMatch.ReadyExactly` | src/blockencodings.cpp:49-103 | Exactly which messages are accepted |
| `CompactMatch.PlacedExactly` | src/blockencodings.cpp:59-74 | Exactly which prefilled transactions are accepted; each is at the position its distances lead to, and the other slots are free |
| `CompactMatch.MadeReady` | src/blockencodings.cpp:19-103 | The message made from a block is accepted if and only if the block is within the limit, no bucket is crowded and the short ids are distinct |
| `CompactMatch.NothingMissing` | src/blockencodings.cpp:19-199 | If the mempool holds each transaction but the first once and nothing else with their short ids, the block is reconstructed without a request |
| `CompactBlock.Reconstructs` | src/blockencodings.cpp:49-199 | The same for any announcement that describes the block: filling the free slots gives the block |
| `CompactBlock.InitDataCounts` | src/blockencodings.cpp:49-170 | On success every short id is distinct; the i-th one points to the i-th free slot if and only if there are at most 65536 slots, and then mempool_count counts the slots filled from the pool |
| `CompactBlock.EndlessExactly` | src/blockencodings.cpp:82-86 | For a well-formed message InitData does not return if and only if there is a short id and at least 65536 prefilled transactions: the 16-bit offset wraps |
| `CompactBlock.EndlessMessage` | src/blockencodings.cpp:82-86 | Such a message, for any short id and transaction |
| `CompactBlock.MessageOverflows` | src/blockencodings.cpp:82-86 | The offset overflows exactly for those messages |
| `CompactBlock.OwnSlotsExactly` | src/blockencodings.cpp:81-86 | The free slots of different short ids are different, and distinct short ids are mapped to their own if and only if there are at most 65536 slots, since positions are stored in 16 bits |
| `CompactBlock.CountsExactly` | src/blockencodings.cpp:103-133 | mempool_count is right for every pool if and only if no short id is mapped to a prefilled slot |
| `CompactBlock.PlaceAllCounts` | src/blockencodings.cpp:57-75 | On success there are as many slots as transactions and exactly as many filled ones as prefilled transactions |
| `CompactBlock.FillBlockExactly` | src/blockencodings.cpp:178-199 | Filling succeeds exactly with as many transactions as are missing |
| `CompactBlock.PoolStepMatched` | src/blockencodings.cpp:109-126 | A second match for a short id empties the slot again and the count follows |
| `CompactBlock.IndexRoundTrip` | src/blockencodings.h:39-70 | Increasing indexes survive the differential coding |
| `CompactBlock.DecodedIncreasing` | src/blockencodings.h:57-63 | Decoded indexes increase if and only if the distances before the last one, each with one added, sum up to less than 65536 |
| `CompactBlock.WrappedIndexes` | src/blockencodings.h:57-63 | Two distances that decode to 65535 followed by 0 |
| `CompactBlock.PartiallyDownloadedBlock.PlacePrefilled` | src/blockencodings.cpp:57-75 | The loop places as specified or refuses |
| `CompactBlock.PartiallyDownloadedBlock.SkipFilled` | src/blockencodings.cpp:84-85 | The search with its 16-bit offset finds the next free slot if the offset can reach it, and does not end exactly if every slot it comes by is filled |
| `CompactBlock.PartiallyDownloadedBlock.IndexShortIds` | src/blockencodings.cpp:81-99 | The loop stays within the slots, gives each short id the 16-bit position of its free slot, and does not end exactly if the offset overflows |
| `CompactBlock.PartiallyDownloadedBlock.MatchPool` | src/blockencodings.cpp:105-133 | The loop with its early stop matches as the function that `CompactMatch.SlotsDecided` is about |
| `CompactBlock.PartiallyDownloadedBlock.MatchExtra` | src/blockencodings.cpp:135-164 | Likewise for the extra transactions |
| `CompactBlock.PartiallyDownloadedBlock.Initialize` | src/blockencodings.cpp:49-170 | Status, slots and counts are those that `CompactMatch.ReadyExactly`, `SlotsDecided` and `InitDataCounts` are about |
| `CompactBlock.PartiallyDownloadedBlock.Complete` | src/blockencodings.cpp:178-199 | The block is the specified one, and the object cannot be used again |
| `NetFraming.ChunksDoNotMatter` | src/net.cpp:729-779 | However a byte stream is cut into chunks, the same messages result |
| `NetFraming.AbsorbIsParse` | src/net.cpp:729-779 | Reading byte by byte is the same as cutting whole messages off the front, refusals included |
| `NetFraming.WireIsParsed` | src/net.cpp:729-779 | Messages sent one after another are received as they were |
| `NetFraming.HeaderSize` | src/protocol.h:49-58 | The size read from a header is the number written into it, lowest byte first |
| `NetFraming.SendableExactly` | src/net.cpp:829-831 | A message with a header made for it can be received if and only if its payload is within the limit |
| `NetFraming.NetMessage.ReadHeader` | src/net.cpp:808-837 | Takes header bytes, and refuses a payload size above MAX_SIZE once the header is complete |
| `NetFraming.NetMessage.ReadData` | src/net.cpp:839-854 | Takes payload bytes, growing the buffer ahead but never past the announced size |
| `NetFraming.Node.ReceiveMsgBytes` | src/net.cpp:729-779 | The loop consumes the whole chunk as the byte-wise reader does, or fails exactly when it does; complete says whether a message was finished |

## Left out

- Coins: the best block hash of the caches, asset hooks, HaveCoin and AccessCoin; after which entries a batch is full is a parameter.
- CheckQueue: interruption of threads, and the order in which the operating system wakes waiters beyond any of them.
- PartialMerkle: choosing the matches by a bloom filter (CMerkleBlock).
- AddrMan: Select_ and its chances, the hashing of buckets, and the width of the id counter.
- AddrManager.AddrMan.Check: ids are visited from 0 to nIdCount, and whether the key is null is a parameter, since the key stands for its hashes.
- AddrManager.AddrMan.Unserialize: the object left behind by a throw, and the byte encoding of the stream's items.
- Miner: CreateNewBlock around the selection (coinbase, witness commitment, validity), the number of updated descendants, which is only logged, overflow of the counters, and the rounding of products in the comparison of fee rates; any strict weak order may be the comparison.
- CuckooCache: concurrent erasure while others read, and the floating-point logarithm of the depth limit, which is a parameter.
- Chain: FindEarliestAtLeast, and overflow of heights near 2^31.
- SkipHeights.HopsBound: the figure of 110 steps for 2^18 blocks that a comment reports from simulations; the bound proved is 360.
- BaseUint: hexadecimal text, floating point, and the bitwise operators on whole numbers.
- ProofOfWork: CheckProofOfWork and the time warp rules outside the cited functions; the window of 180 blocks is a parameter.
- ProofOfWork.WindowExact: the regression test network, whose limit near 2^255 leaves no room for the products.
- BoolExpr: trim and removeCharacter, and the text of error messages.
- BoolLanguage.AcceptedExactly: valuations with names that hold other than name characters; the program takes the names from runs of such characters (src/assets/assets.cpp:4850-4862).
- Base58: addresses and keys built on the strings.
- RollingBloom: the sizes computed from a false positive rate, and the fixed filter (CBloomFilter).
- CompactBlock: CheckBlock on the result, the count of extra transactions, which is only logged, and the object after a failed InitData; whether a hash bucket is too full is a parameter.
- NetFraming: hashing of payloads, byte counters per command, and sending.
