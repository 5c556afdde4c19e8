# PISA, modelled and proved in Dafny

PISA is an Ethereum watchtower: it watches the chain for customers, responds for them when an event occurs, and is held
to account by a contract. This project models the parts of it whose behaviour is decided by code and proves what they
promise. `dafny verify dfyconfig.toml` checks all of it.

| part | modules |
|---|---|
| Gas queue: ordered by price and by nonce at once | `GasQueue`, `GasQueueBuffer`, `GasQueueConstructor`, `GasQueueAdd`, `GasQueuePrepend`, `GasQueueRuns`, `GasQueueIdentity`, `StableSort` |
| Responder: queue, records and broadcasts in step | `Responder`, `ResponderTheorems`, `ResponderReorg`, `ResponderPrices`, `ResponderStale`, `ResponderService` |
| Block cache: a pruned block tree | `BlockCache`, `BlockCacheTheorems`, `BlockCacheAdd`, `BlockCacheParents`, `BlockCacheRule`, `BlockCacheAncestry`, `BlockCacheRestart`, `BlockCacheService` |
| Block processor: filling the cache from a provider | `BlockProcessor`, `BlockProcessorParents`, `BlockProcessorService` |
| Blockchain machine: states folded along forks, actions | `Reducers`, `MappedReducer`, `Watcher`, `ResponderComponent`, `WatcherTimes`, `BlockchainMachine`, `MachineTheorems`, `MachineEvents`, `CrashSafety`, `CrashSteps`, `CrashMachine` |
| Durable stores | `BlockItemStore`, `ActionStore`, `AppointmentStore`, `AppointmentStoreService` |
| Utilities | `Lock`, `MapOfSets`, `Counting`, `Wrappers` |
| Contracts | `DataRegistry`, `PisaHash`, `PisaHashCalls`, `PisaHashTheorems`, `PisaHashContract` |

Code that only computes is a function. Code that changes things in place is a class or a method with the loops of the
source, whose contract equates its effect with such a function; the theorems are about the functions. Exceptions and
reverts are results. Each locked section is one step; only the locks themselves are modelled as interleaved steps.

Inputs that the model takes as given: what a provider answers (any answers that belong to one chain of blocks, or
failures), what signatures recover to and what the handlers of a mode answer, ideal gas prices, fresh identifiers, and
when a write fails or a crash happens. Hashes are injective, and a block's hash determines the block, whose parent is
numbered one below.

## Where the code and its documentation part

* `consume` on the front item always throws, because it shifts an empty range (`GasQueueAdd.ConsumeIsDeletion`).
* The queue constructor does not check that an item agrees with its request about the ideal price. `prepend` and `add`
  rely on it; every operation keeps it (`GasQueueRuns.StepKeepsSound`), so the lemmas about one operation assume it.
* A request mined from behind the front keeps a stale nonce on record. When its block is undone at once it does not come
  back (`ResponderReorg.ComesBackAtOnceIff`). Later it comes back exactly if that nonce happens to be just below the queue
  (`ResponderReorg.ComesBackIff`), although another transaction may have used it since: with rate 10 and an empty queue at
  nonce 3, start x, b and a for 100, 200 and 300, let x, a and b be mined at 3, 4 and 5, and re-enqueue x; it comes back at
  nonce 5 for 100 (`ResponderStale.StaleRecordComesBack`).
* So replacements do not always pay the premium over what was sent at their nonce before. They do if and only if, whenever
  records come back, each is in place and was the last item sent at its nonce or pays over it, or is replaced by an item
  that does (`ResponderPrices.RunPaysIff`).
* The round trip of a reorganisation needs a stable sort exactly if two items of the queue have the same ideal price
  (`GasQueueRuns.AnyPriceOrderRestoresIff`); an accepted `prepend` is right with any sort
  (`GasQueuePrepend.ReorderedInOrder`).
* The cache says that attached blocks have attached parents or the greatest depth. Sweeping does not look at parents, so
  this fails after some runs (`BlockCacheParents.OrphanIsAttached`). Adding a block keeps it exactly under a condition on
  the detached blocks that the call takes (`BlockCacheRule.AddKeepsParentsIff`), and walks from a clean cache always do
  (`BlockProcessorParents.WalkKeepsClean`).
* The cache says that nothing deeper than `maxDepth` is kept. After a restart it takes itself for empty and never prunes what
  is stored below the first new block (`BlockCacheRestart.DepthIsBoundedIff`).
* `processBlockNumber` is said to work in batches. The head it reads does not move between them, so for a block number out
  of reach it never finishes (`BlockProcessor.FinishesIffWithinReach`).
* A fold does not look at the start block, a scan does (`Reducers.WatcherScanVersusFold`).
* A head emitted after a block above it was attached is not seen by that block (`MachineTheorems.LateHeadIsMissed`). This
  does harm exactly if no block in between was emitted and the block carries another state
  (`MachineTheorems.EventKeepsTrackingIff`).
* The item store asks for a restart after a failed batch. The processor logs the error and goes on: the memory then stays
  ahead of the database, unless the failed batch changed nothing (`BlockItemStore.FirstHarm`).
* Keys of the action store are read back only for component names without a colon (`ActionStore.KeysRoundTripIff`).
* The registry dates its second shard ahead, and an unsigned subtraction makes the next access replace it
  (`DataRegistry.DatedAheadIsReplaced`). A shard can be reset, and a response lost, while recourse is still open
  (`PisaHashTheorems.HonestWatcherIsPunishedIff`, for every mode).
* `pendingrefunds` counts forfeits as still pending and wraps below zero after cancellations of untriggered records
  (`PisaHashTheorems.PendingRefundsFromTheStart`, `PisaHashTheorems.VainCancellationBlocksRefund`).

## Model

| member | source | states |
|---|---|---|
| GasQueueConstructor.MakeIffValid | src/responder/gasQueue.ts:229-274 | the constructor's checks of neighbours, and of the end of the queue, accept a queue exactly if all of it is ordered by price, its nonces are consecutive up to the empty one, identifiers are distinct and there is room |
| GasQueueConstructor.OutcomeInOrder | src/responder/gasQueue.ts:239-273 | for items already in order the only errors left are a repeated identifier and, after that, a lack of room |
| GasQueueAdd.ReplacementPriceIsLeast | src/responder/gasQueue.ts:280-287 | the round-up arithmetic gives the least integer that pays the premium |
| GasQueueAdd.ReplacedPaysPremium | src/responder/gasQueue.ts:339-355 | a replacement keeps the nonce, pays the premium over the old price, and pays no more than the premium or its own ideal price asks for |
| GasQueueAdd.AddIsInsertion | src/responder/gasQueue.ts:364-386 | `add` succeeds exactly if there is room and the identifier is new; it inserts before the first strictly cheaper request, leaves the dearer items alone, replaces at the least premium from there on, keeps the queue well formed, and `difference` is exactly the items from that point on |
| GasQueueIdentity.SameIff | src/responder/gasQueue.ts:55-67 | two identifiers are taken for the same exactly if chain, data, value and gas limit agree and the recipients agree character by character up to the case of ASCII letters |
| GasQueueIdentity.SameIsEquivalence | src/responder/gasQueue.ts:55-67 | this is an equivalence |
| GasQueueIdentity.AddSucceedsIff | src/responder/gasQueue.ts:364-386 | `add` succeeds if and only if there is room and the request differs from every queued one in one of these fields; with room and an agreeing one the error is that it was added already |
| GasQueueIdentity.StartSendsIff | src/responder/multiResponder.ts:67-112 | starting a response queues and sends its transaction under exactly this condition, and otherwise changes nothing |
| GasQueueIdentity.ReportsIff | src/responder/multiResponder.ts:103-111 | the caller is told of an agreeing queued request, and of no other error |
| GasQueueAdd.ConsumeIsDeletion | src/responder/gasQueue.ts:393-402 | `consume` succeeds exactly for an identifier behind the front, and always fails for the front item; it deletes that request, the earlier ones move up one nonce at the least premium, the later items stay, and `difference` is exactly the moved ones |
| GasQueueAdd.MissingAllOrNothing | src/responder/gasQueue.ts:417-420 | `difference` drops everything that is in the other queue and keeps, in order, everything that is not |
| GasQueueBuffer.ItemBuffer.Append | src/responder/gasQueue.ts:299-302 | pushes a new item at the empty nonce for its ideal price |
| GasQueueBuffer.ItemBuffer.Replace | src/responder/gasQueue.ts:339-355 | overwrites one position in place with the replacement |
| GasQueueBuffer.ItemBuffer.ShiftRight | src/responder/gasQueue.ts:312-329 | the downward loop moves the requests of a range up by one position, appending at the end, and fails for an empty range |
| GasQueueBuffer.CheckIntegrity | src/responder/gasQueue.ts:241-262 | the constructor's loop finds the first fault between neighbours |
| GasQueueBuffer.Construct | src/responder/gasQueue.ts:229-274 | the constructor accepts and rejects like `Make` |
| GasQueueBuffer.AddInPlace | src/responder/gasQueue.ts:364-386 | `add` on a cloned array computes `Add` |
| GasQueueBuffer.ConsumeInPlace | src/responder/gasQueue.ts:393-402 | `consume` on a cloned array computes `Consume` |
| GasQueueBuffer.ReplaceMoved | src/responder/gasQueue.ts:447-457 | the loop over both orders overwrites exactly the positions at which they differ |
| GasQueueBuffer.PrependInPlace | src/responder/gasQueue.ts:436-461 | `prepend` on arrays computes `Prepend` |
| GasQueuePrepend.PrependOutcome | src/responder/gasQueue.ts:436-461 | `prepend` succeeds if and only if the lower items fill the nonces just below the queue, identifiers are distinct and there is room; the result is well formed and holds the same requests as before, as a multiset |
| GasQueuePrepend.PrependMerges | src/responder/gasQueue.ts:436-461 | exactly the positions that the price order moves get another request, each at the least premium over the item that had the nonce; the items to broadcast are those and the lower ones |
| GasQueuePrepend.ReorderedInOrder | src/responder/gasQueue.ts:447-460 | overwriting by nonce towards any price order, from a stable sort or not, gives items ordered both ways with the same requests |
| GasQueuePrepend.FillingMakesConsecutive | src/responder/gasQueue.ts:437-439 | lower items that fill the nonces below make the merged nonces consecutive |
| GasQueuePrepend.ConsecutiveMeansFilling | src/responder/gasQueue.ts:437-439 | and only such lower items do |
| GasQueueRuns.StepKeepsSound | src/responder/gasQueue.ts:364-461 | every operation keeps a queue well formed, with items that agree with their request about the ideal price |
| GasQueueRuns.StepPriceRule | src/responder/gasQueue.ts:339-461 | whatever the operation, the item at a nonce is the one from before or pays the premium over it |
| GasQueueRuns.HistoryPaysPremium | src/responder/gasQueue.ts:201-212 | over every run in which the queue keeps a nonce, each item at that nonce pays the premium over the one before |
| GasQueueRuns.PremiumCompounds | src/responder/gasQueue.ts:201-212 | after k replacements 100^k * p_k >= (100 + rate)^k * p_0 |
| GasQueueRuns.ReorgRoundTrip | src/responder/gasQueue.ts:407-461 | dequeuing k items and prepending the same k in any order gives back the very same queue |
| GasQueueRuns.AnyPriceOrderRestoresIff | src/responder/gasQueue.ts:439-457 | for that round trip any order by price would do, stable or not, if and only if no two items of the queue have the same ideal price; with a tie some order by price, not stable, replaces items that came back unchanged |
| GasQueueRuns.ReorgAfterAdds | src/responder/gasQueue.ts:364-461 | with requests added in between, the prepend is accepted if and only if there is room and none of the k items was queued again |
| GasQueueRuns.ReorgKeepsRequests | src/responder/gasQueue.ts:364-461 | and then no request is lost |
| StableSort.SortIsStableSort | src/responder/gasQueue.ts:439-445 | the sort permutes, orders, and keeps the order of ties |
| StableSort.StableSortIsUnique | src/responder/gasQueue.ts:439-445 | these three properties determine the result of the sort |
| ResponderTheorems.RunKeepsTracked | src/responder/multiResponder.ts:67-218 | in every run of starts, mined transactions, re-enqueues and ends of unqueued responses, each queued item is the recorded one for its id and the last one broadcast at its nonce, and the queue stays well formed |
| ResponderTheorems.StepKeepsTracked | src/responder/multiResponder.ts:67-218 | one step of such a run, error branches included |
| ResponderTheorems.EmptyQueueIsTracked | src/responder/store.ts:30-36 | the run may start from any empty queue that the constructor accepts |
| ResponderTheorems.MinedRemovesRequest | src/responder/multiResponder.ts:125-176 | an accepted `txMined` takes exactly the mined request out of the queue and raises the front nonce by one |
| ResponderTheorems.MinedRequestsRemain | src/responder/multiResponder.ts:149-167 | reducing the queue never fails once the transaction is accepted, and adds no request |
| ResponderTheorems.EndedStaysOut | src/responder/multiResponder.ts:184-218 | an ended response has no record any more, the others keep theirs, and a request to re-enqueue it does nothing |
| ResponderTheorems.ConsumedItemStaysOut | src/responder/multiResponder.ts:184-208 | a request mined from behind the front keeps its stale nonce on record, so that re-enqueuing it at once is rejected and changes nothing |
| ResponderReorg.ComesBackAtOnceIff | src/responder/multiResponder.ts:125-208 | when the block of a mined transaction is undone at once, re-enqueuing puts its request back if and only if it was at the front, and then restores the very queue; otherwise it changes nothing |
| ResponderReorg.ComesBackIff | src/responder/multiResponder.ts:184-208 | at any time, a single recorded request that is not queued comes back if and only if its recorded nonce is the one just below the queue and there is room |
| ResponderStale.StaleRecordComesBack | src/responder/multiResponder.ts:184-208 | a concrete run of six steps after which a stale record comes back, at a nonce that another transaction has used since, and below the price sent there |
| ResponderPrices.RunPaysIff | src/responder/gasQueue.ts:201-212 | over every run of the responder, of two successive items sent at one nonce the later is the same or pays the premium, if and only if, whenever records come back, each pays at its nonce over what was last sent there: the record itself if the order by price leaves it in place, and otherwise the replacement over it |
| ResponderPrices.NewNoncesPayIff | src/responder/multiResponder.ts:184-208 | what a re-enqueue sends pays if and only if this condition holds of the records, the queue and what was sent before |
| ResponderPrices.RunPays | src/responder/gasQueue.ts:201-212 | that is so when only records come back that were the last items sent at their nonces |
| ResponderPrices.UnmovedPaysIffUpToDate | src/responder/multiResponder.ts:184-208 | for records that come back unmoved, at prices above zero, what is sent pays exactly when each was the last item sent at its nonce |
| ResponderService.ResponderStore.UpdateQueue | src/responder/store.ts:55-70 | writes the queue and the difference to the database, records the difference by id, and returns it; the database keeps describing the memory |
| ResponderService.ResponderStore.RemoveResponse | src/responder/store.ts:76-82 | deletes one response from memory and database |
| ResponderService.ResponderStore.Start | src/responder/store.ts:38-48 | a restart rebuilds queue and records from the database, with the settings of the seed queue, and fails exactly if these no longer fit |
| ResponderService.MultiResponder.StartResponse | src/responder/multiResponder.ts:67-112 | the locked section and the broadcast compute `StartResponse`; the caller hears only of an identifier that is queued already |
| ResponderService.MultiResponder.TxMined | src/responder/multiResponder.ts:125-176 | the locked section and the broadcast compute `TxMined` |
| ResponderService.MultiResponder.ReEnqueueMissingItems | src/responder/multiResponder.ts:184-208 | the locked section and the broadcast compute `ReEnqueueMissingItems` |
| ResponderService.MultiResponder.EndResponse | src/responder/multiResponder.ts:214-218 | the record of the response is dropped |
| Lock.EveryInterleavingIsFair | src/utils/lock.ts:8-48 | for every interleaving: at most one holder, grants in the order of the requests, no waiter lost, and no waiters at an unlocked lock |
| Lock.EveryRequestIsServed | src/utils/lock.ts:21-47 | as many releases as requests serve every request, in order, and leave the lock unlocked |
| Lock.KeysAreIndependent | src/utils/lock.ts:55-84 | the manager does to each key what that key's own events do to a single lock, and has an entry exactly for the locked keys |
| Lock.FifoLock.Acquire | src/utils/lock.ts:21-30 | takes the lock or queues the caller |
| Lock.FifoLock.Release | src/utils/lock.ts:37-47 | passes the lock to the first waiter, or unlocks it, or throws if it is not locked |
| Lock.LockManager.Acquire | src/utils/lock.ts:65-71 | creates the lock of a key on demand and acquires it |
| Lock.LockManager.Release | src/utils/lock.ts:78-84 | releases the lock of a key and drops it once it is unlocked; throws if there is none |
| MapOfSets.MembershipAfter | src/utils/mapSet.ts:12-32 | adding and deleting change one membership and nothing else, leave no empty set, and deleting fails exactly if the key is missing |
| MapOfSets.AddThenDelete | src/utils/mapSet.ts:12-32 | deleting what was just added gives back the original map |
| MapOfSets.SetMap.AddToSet | src/utils/mapSet.ts:12-17 | adds to the set of a key, in place |
| MapOfSets.SetMap.DeleteFromSet | src/utils/mapSet.ts:25-32 | deletes from the set of a key, in place, and drops an empty set |
| AppointmentStore.DecimalReads | src/dataEntities/appointment.ts:383-385 | nonces are written in decimal digits that read back as the nonce |
| AppointmentStore.KeysDetermine | src/dataEntities/appointment.ts:374-385 | ids determine locator and nonce; locators determine customer and chosen id for addresses without the separator |
| AppointmentStore.UpdateKeepsConsistent | src/watcher/store.ts:72-102 | an update fails exactly for a nonce that is not larger; otherwise all three indexes and the database describe the same appointments, with the new one in place of that locator's old one |
| AppointmentStore.RemoveKeepsConsistent | src/watcher/store.ts:109-139 | removing a stored appointment never fails, removes nothing else and keeps the four views equal |
| AppointmentStore.RunKeepsConsistent | src/watcher/store.ts:72-139 | every run of store operations keeps them equal |
| AppointmentStore.NoncesIncrease | src/watcher/store.ts:81-83 | while a locator stays present its appointment changes only to one with a larger nonce |
| AppointmentStore.DatabaseDetermines | src/watcher/store.ts:20-29 | the database determines the three indexes |
| AppointmentStoreService.Appointments.AddOrUpdateByLocator | src/watcher/store.ts:72-102 | the in-place update of maps and database computes `AddOrUpdate` |
| AppointmentStoreService.Appointments.RemoveById | src/watcher/store.ts:109-139 | the in-place removal never throws on a consistent store and tells whether there was something to remove |
| AppointmentStoreService.Appointments.Start | src/watcher/store.ts:20-29 | a restart rebuilds exactly the indexes of the store that wrote the database |
| BlockCacheAdd.AddBlockKeepsInvariant | src/blockMonitor/blockCache.ts:159-200 | every `addBlock` keeps: stored heights start at the minimum height, `maxHeight` is the greatest height ever attached, no detached block is at the minimum height or has an attached parent, exactly the attached blocks (and pruned ones) were emitted, once each and after their parent if that was cached; nothing at or above the minimum height is lost |
| BlockCacheAdd.EveryRunKeepsInvariant | src/blockMonitor/blockCache.ts:159-200 | so does every run; heights only grow and emissions are only added |
| BlockCacheAdd.NewBlockExactlyOnce | src/blockMonitor/blockCache.ts:114-200 | over every run from an empty cache "new block" is emitted exactly once for each block that becomes attached, never for a detached one, and after the parent's if that was attached |
| BlockCacheAdd.AttachingKeeps | src/blockMonitor/blockCache.ts:177-191 | an attachable block is attached by the call, unless it falls below the minimum height within it |
| BlockCacheAdd.StoringKeeps | src/blockMonitor/blockCache.ts:192-196 | a block that is not attachable is stored detached and nothing else changes |
| BlockCacheAdd.OutcomeMeans | src/blockMonitor/blockCache.ts:159-200 | which result of `addBlock` says what about the block and the cache before the call: stored and attached, stored and detached, below the lowest height, or new and without an attached parent; without an addition nothing changes |
| BlockCacheTheorems.SweptKeeps | src/blockMonitor/blockCache.ts:114-132 | sweeping detached blocks upwards ends, attaches whole heights up to the first gap, and leaves no detached block with an attached parent |
| BlockCacheTheorems.SweptAtMinHeightKeeps | src/blockMonitor/blockCache.ts:138-144 | the repeated sweep ends and leaves no detached block at the minimum height, which its own attachments may have moved |
| BlockCacheTheorems.PrunedKeeps | src/blockMonitor/blockCache.ts:91-96 | pruning deletes exactly the blocks below the minimum height |
| BlockCache.SweepShrinks | src/blockMonitor/blockCache.ts:114-132 | each round of a sweep leaves fewer detached blocks, which is why the recursion ends |
| BlockCacheParents.SweepTakes | src/blockMonitor/blockCache.ts:114-132 | which blocks a sweep attaches: the detached ones of the heights before the first gap, whoever their parents are |
| BlockCacheParents.SweepKeepsParentsIff | src/blockMonitor/blockCache.ts:36-46 | a sweep leaves every attached block above the minimum height with an attached parent if and only if each block it takes above that height has its parent taken or attached |
| BlockCacheRule.AddKeepsParentsIff | src/blockMonitor/blockCache.ts:36-46 | `addBlock` keeps every attached block above the minimum height with an attached parent if and only if each detached block that the call takes above its final minimum height is a child of the new block or has a stored parent; directly above the new block a stored parent counts only if the sweep from that minimum height gets there |
| BlockCacheRule.AddingSettles | src/blockMonitor/blockCache.ts:159-200 | the minimum height with which the call ends, and the blocks it attaches, written from the cache before the call and the block |
| BlockCacheRule.AddKeepsParents | src/blockMonitor/blockCache.ts:36-46 | so it does when every detached block is anchored in a stored parent or in the new block, and then every detached block that is left has a stored parent |
| BlockCacheRestart.DepthIsBoundedIff | src/blockMonitor/blockCache.ts:38-43 | over every run after a restart that adds a new block, the depth of the cache is bounded if and only if all that was stored below the first new block is still within the depth; as long as anything was, the invariant does not come back |
| BlockCacheRestart.RestartedRun | src/blockMonitor/blockCache.ts:52-175 | until then the cache is unchanged; afterwards nothing that was stored below that block is ever pruned, and everything else is at the minimum height or above |
| BlockCacheParents.AttachesWhateverIsAbove | src/blockMonitor/blockCache.ts:114-132 | adding an attachable block attaches every detached block directly above it, whoever its parent is |
| BlockCacheParents.StrangerBreaksParents | src/blockMonitor/blockCache.ts:114-132 | so a detached block there with an unknown parent ends up attached without it |
| BlockCacheParents.ForkBreaksParents | src/blockMonitor/blockCache.ts:36-46 | every fork of this shape breaks the documented rule in three calls, given room for two blocks |
| BlockCacheParents.OrphanIsAttached | src/blockMonitor/blockCache.ts:36-46 | a concrete run in which it breaks |
| BlockCacheAncestry.AncestryIsChain | src/blockMonitor/blockCache.ts:228-236 | the ancestry follows parents, with numbers going down by one, through attached blocks, and ends where the parent is not attached |
| BlockCacheAncestry.AncestryReachesMinHeight | src/blockMonitor/blockCache.ts:228-236 | when parents are attached it reaches down to the minimum height |
| BlockCacheAncestry.NearestIsNearest | src/blockMonitor/blockCache.ts:243-252 | the search finds the nearest block of the chain that satisfies the predicate and is not below the given height, or there is none |
| BlockCacheAncestry.OldestIsLast | src/blockMonitor/blockCache.ts:260-274 | searching for a block whose parent is not attached finds the last block of the ancestry |
| BlockCacheAncestry.ConfirmationsCountBlocks | src/blockMonitor/blockCache.ts:311-316 | with k > 0 confirmations the transaction is in the k-th block of the chain and in none after it; with 0 it is in no cached block |
| BlockCacheService.LiveCache.Prune | src/blockMonitor/blockCache.ts:91-96 | the loop computes `Pruned` |
| BlockCacheService.LiveCache.UpdateMaxHeightAndPrune | src/blockMonitor/blockCache.ts:146-152 | computes `RaisedTo` |
| BlockCacheService.LiveCache.ProcessDetached | src/blockMonitor/blockCache.ts:114-132 | the recursion over heights computes `Swept` |
| BlockCacheService.LiveCache.ProcessDetachedBlocksAtMinHeight | src/blockMonitor/blockCache.ts:138-144 | the do-while loop computes `SweptAtMinHeight` |
| BlockCacheService.LiveCache.AddBlock | src/blockMonitor/blockCache.ts:159-200 | the in-place update and its result are those of `AddBlock` and `Outcome` |
| BlockCacheService.LiveCache.SetHead | src/blockMonitor/blockCache.ts:281-286 | sets the head exactly if the block is attached |
| BlockCacheService.LiveCache.FindAncestor | src/blockMonitor/blockCache.ts:243-252 | the loop over ancestors computes `Nearest` on the ancestry |
| BlockCacheService.LiveCache.GetOldestAncestorInCache | src/blockMonitor/blockCache.ts:260-274 | fails exactly for a block that is not attached, and otherwise returns the last block of the ancestry |
| BlockProcessor.WalkAttaches | src/blockMonitor/blockProcessor.ts:229-255 | for every provider whose answers belong to one chain the backward walk ends, after at most as many blocks as there are heights down to the minimum height; if no request failed, the block it started from is attached exactly if it is not below the final minimum height |
| BlockProcessor.StoredIsNotRequested | src/blockMonitor/blockProcessor.ts:200-207 | the walk does not depend on what the provider answers about stored blocks: they are never requested |
| BlockProcessor.FailsAtRequest | src/blockMonitor/blockProcessor.ts:229-255 | a walk that fails does so exactly when the parent of the last block it looked at is not stored and cannot be fetched |
| BlockProcessor.FinishedIsAttached | src/blockMonitor/blockProcessor.ts:215-262 | when the outer loop finishes, `setHead` on the observed block succeeds exactly if it is not below the minimum height |
| BlockProcessor.EndsAfterOneBatch | src/blockMonitor/blockProcessor.ts:222-256 | with an empty cache, or a block number at most `maxDepth` above the head, the outer loop ends in its first batch, one way or another |
| BlockProcessor.BeyondReachNeverFinishes | src/blockMonitor/blockProcessor.ts:222-256 | with a larger block number it never finishes, whatever the provider answers |
| BlockProcessor.FinishesIffWithinReach | src/blockMonitor/blockProcessor.ts:222-256 | with a provider that answers every request it finishes if and only if the number is within reach |
| BlockProcessor.BeyondReachNeverEnds | src/blockMonitor/blockProcessor.ts:215-256 | and otherwise it is still running after any number of batches, if nothing is stored above the first batch |
| BlockProcessorParents.WalkKeepsClean | src/blockMonitor/blockProcessor.ts:117-123 | a walk from a cache with no detached blocks and with parents attached keeps parents attached, and leaves no detached block if and only if no request failed |
| BlockProcessorParents.FinishedWithItsAncestry | src/blockMonitor/blockProcessor.ts:117-123 | then the whole ancestry of a finished head down to the minimum height is cached, and each block of it was emitted as a new block |
| BlockProcessorParents.FailedWalkBreaksParents | src/blockMonitor/blockProcessor.ts:229-255 | a failed request can leave a detached block that a later walk attaches without its parent |
| BlockProcessorService.Processor.WalkBack | src/blockMonitor/blockProcessor.ts:229-255 | the inner loop computes `Walked` |
| BlockProcessorService.Processor.ProcessBlockNumber | src/blockMonitor/blockProcessor.ts:211-256 | the outer loop computes `Processed`, for as many batches as it is given answers |
| BlockProcessorService.Processor.ProcessNewHead | src/blockMonitor/blockProcessor.ts:171-198 | sets the head, announces it if started, and writes its number only if that succeeded |
| BlockProcessorService.Processor.Settle | src/blockMonitor/blockProcessor.ts:258-262 | a finished call that was not overtaken makes the observed block the head exactly if it is not below the minimum height |
| BlockItemStore.BatchIsAtomic | src/dataEntities/block.ts:223-237 | after a batch that completes the database holds exactly the items in memory, each under its height; after one that fails the database is unchanged, and agrees with the memory if and only if the operations changed nothing |
| BlockItemStore.RunMeans | src/dataEntities/block.ts:223-237 | what memory and database hold after every run of batches that complete or fail, with restarts in between or without: every batch reaches the memory, only a completed one the database, and a restart copies it back |
| BlockItemStore.FailuresLeaveNoTrace | src/dataEntities/block.ts:69-72 | in every run in which each failing batch changed nothing or is followed by a restart, the items are those of the completed batches, as if the failing ones had never begun, and memory, height index and database agree |
| BlockItemStore.FirstHarm | src/dataEntities/block.ts:223-237 | and the first failing batch without a restart leaves memory and database in agreement if and only if it changed nothing |
| BlockItemStore.RestartRebuildsMemory | src/dataEntities/block.ts:103-117 | whatever the order of the records, a restart gives back the items and the height index |
| BlockItemStore.BatchMeans | src/dataEntities/block.ts:124-237 | whatever happened before, a batch of puts and deletions by height does to the items in memory and to those in the database what it says, and rejects exactly if it fails |
| BlockItemStore.BlocksOfHeight | src/dataEntities/block.ts:181-198 | the blocks of a height are those stored there, each once, and nothing else that is kept for a block |
| BlockItemStore.ItemStore.StartInternal | src/dataEntities/block.ts:103-117 | loading the records one by one rebuilds items and index |
| BlockItemStore.ItemStore.PutBlockItem | src/dataEntities/block.ts:124-134 | updates index, items and batch; without a batch it throws after the memory was changed |
| BlockItemStore.ItemStore.DeleteItemsAtHeight | src/dataEntities/block.ts:201-211 | the loop deletes the items of a height and adds their deletions to the batch |
| BlockItemStore.ItemStore.GetBlocksAtHeight | src/dataEntities/block.ts:181-198 | the blocks of a height in the order of the index, each with its flag |
| BlockItemStore.ItemStore.WithBatchOf | src/dataEntities/block.ts:223-237 | opens, applies and closes a batch like `WithBatch` |
| ActionStore.KeysRoundTripIff | src/blockMonitor/actionStore.ts:24-33 | a database key is read back as component and identifier if and only if the name of the component holds no colon |
| ActionStore.RestartGivesBack | src/blockMonitor/actionStore.ts:24-39 | a restart gives back the actions of every component |
| ActionStore.StoringAgrees | src/blockMonitor/actionStore.ts:51-68 | storing under new identifiers keeps memory and database in agreement |
| ActionStore.RemovingAgrees | src/blockMonitor/actionStore.ts:71-80 | so does removing one action, and no other entry is lost |
| ActionStore.Store.StartInternal | src/blockMonitor/actionStore.ts:24-39 | loading the records one by one rebuilds the memory |
| ActionStore.Store.StoreActions | src/blockMonitor/actionStore.ts:51-68 | wraps each action with its identifier, in order, and adds exactly these for that component |
| ActionStore.Store.RemoveAction | src/blockMonitor/actionStore.ts:71-80 | removes exactly this entry from database and memory |
| Reducers.ScanVersusFold | src/watcher/watcher.ts:40-67 | a fold records a block exactly when a scan finds one or a folded block below the start block matches; the recorded block is never above the one the scan finds |
| Reducers.WatcherScanVersusFold | src/watcher/watcher.ts:40-67 | scan and fold agree on observed or not if and only if no folded block below `startBlock` matches or some block of the chain at `startBlock` or above does; so always when the chain starts at `startBlock` or above; the fold's block is at most the scan's, and equal if the event is unique |
| Reducers.ResponseScanVersusFold | src/responder/component.ts:59-106 | the same for pending and mined responses, given that transactions report the number of their block |
| Reducers.SameBlockIfUnique | src/watcher/watcher.ts:40-67 | when only one block matches, scan and fold that both record one record the same |
| Reducers.SettledStays | src/watcher/watcher.ts:58-67 | a state that no block changes stays, however far the fold goes on |
| MappedReducer.FilledPointwise | src/blockMonitor/component.ts:58-91 | with distinct ids there is one entry for each item and no other, in the order of the collection |
| MappedReducer.MappedFoldIsPointwise | src/blockMonitor/component.ts:58-91 | over a changing collection, an item that entered at a block and stayed has the state of its own reducer, scanned there and folded from then on |
| MappedReducer.MappedStateReducer.GetInitialState | src/blockMonitor/component.ts:58-68 | the loop computes `MappedInitial` |
| MappedReducer.MappedStateReducer.Reduce | src/blockMonitor/component.ts:76-91 | the loop computes `MappedReduce` |
| Watcher.ComparisonCounts | src/watcher/watcher.ts:151-194 | one comparison starts at most one response for an appointment, exactly if it becomes due, with the observed block, and removes it once for each reason that comes up |
| Watcher.StartedExactlyOnce | src/watcher/watcher.ts:151-194 | along every chain of emitted heads a response is started exactly once if it is due at the last head but not at the first, with the block on record, and otherwise not at all |
| WatcherTimes.StartsAtFirstHead | src/watcher/watcher.ts:126-132 | in block numbers: a response to an event of block k is started by the first head numbered k + confirmationsBeforeResponse - 1 or more at which the event is on record, once, and by no other head of the chain |
| WatcherTimes.RemovesAtFirstHeads | src/watcher/watcher.ts:134-149 | an appointment is removed by the first head at which its event has `confirmationsBeforeRemoval` confirmations, and while it is still watched by the first head numbered above endBlock + confirmationsBeforeRemoval; once each, and by no other |
| Watcher.RemovalFollowsStart | src/watcher/watcher.ts:117-194 | with `confirmationsBeforeResponse` at most `confirmationsBeforeRemoval`, in the sequence of all actions along a chain of heads the removal of an appointment that was observed by then stands behind the start of its response, unless that start was due at the first head |
| Watcher.StartedBeforeRemoval | src/watcher/watcher.ts:117-123 | and when its removal is due the response was started exactly once by then, or due at the first head |
| Watcher.RunsOnChainsFollow | src/watcher/watcher.ts:58-67 | the states of an appointment that is kept in the store, at heads of one chain, form such a run |
| Watcher.WatcherComponent.DetectChangesInLoop | src/watcher/watcher.ts:151-194 | the loop computes `DetectChanges`, and throws exactly if an appointment of the state is no longer in the store |
| Watcher.WatcherComponent.Create | src/watcher/watcher.ts:117-123 | the constructor refuses removal before response |
| ResponderComponent.PendingAreReEnqueued | src/responder/component.ts:180-183 | every comparison asks first, and once, for exactly the appointments with a pending response |
| ResponderComponent.AnnouncedExactlyOnce | src/responder/component.ts:185-215 | along every chain of heads a response is announced as mined, with its nonce, and ended, each exactly once if it becomes due |
| WatcherTimes.EndsAtFirstHead | src/responder/component.ts:165-172 | in block numbers: a response mined in block k is ended by the first head numbered above k + confirmationsRequired, once, and by no other head of the chain |
| WatcherTimes.AnnouncedAtFirstHead | src/responder/component.ts:161-204 | and announced as mined, at its nonce, by the first head at which it is mined |
| ResponderComponent.MinedBeforeEnded | src/responder/component.ts:192-214 | a response that ends was announced as mined, or was mined at the first head already |
| ResponderComponent.RunsOnChainsFollow | src/responder/component.ts:92-106 | the states of a tracked response at heads of one chain form such a run |
| ResponderComponent.DetectChangesInLoop | src/responder/component.ts:174-218 | the loop computes `DetectChanges` |
| BlockchainMachine.NewBlockIsPerComponent | src/blockMonitor/blockchainMachine.ts:84-110 | what a new block does to the states of a component is what that component alone would do |
| BlockchainMachine.NewStateOf | src/blockMonitor/blockchainMachine.ts:84-104 | the anchor state that a new block gets for each component: its cached parent's state reduced by the block; the scan of the parent's cached ancestry reduced by the block if the parent has no state; the scan of the block if no parent is cached |
| BlockchainMachine.NewHeadIsPerComponent | src/blockMonitor/blockchainMachine.ts:124-147 | the same for a new head, and for the actions |
| BlockchainMachine.HeadReaches | src/blockMonitor/blockchainMachine.ts:124-147 | a head reaches exactly the components that, with all before them, have a state for it: their states and actions change as each alone would, and the others stay as they are |
| BlockchainMachine.Machine.ProcessNewBlock | src/blockMonitor/blockchainMachine.ts:79-114 | the loop over components computes `NewBlockItems` |
| BlockchainMachine.Machine.ProcessNewHead | src/blockMonitor/blockchainMachine.ts:116-151 | the loop records the state of each component and stores and runs its actions first, under new identifiers; it ends early exactly at a component without a state, or whose actions cannot be written, and then that state is not recorded |
| MachineTheorems.RunTracks | src/blockMonitor/blockchainMachine.ts:84-147 | over every run in which no head does harm, from tracked states or from components that have no states yet for cached blocks: the anchor state of every block attached since that was not pruned is its reducer folded along its lineage, which ends with a scan of the cached ancestry where states began, and the carried state is that of the nearest emitted block of the lineage, pruned or not |
| MachineTheorems.EventKeepsTrackingIff | src/blockMonitor/blockchainMachine.ts:79-151 | an event keeps this if and only if it is not a head that does harm: one where some block above, with no emitted block from there down to the head, carries another state than that of the head |
| MachineTheorems.FirstHarmIsDone | src/blockMonitor/blockchainMachine.ts:79-151 | so a run goes wrong exactly with its first such head |
| MachineTheorems.TimelyIsHarmless | src/blockMonitor/blockchainMachine.ts:134-146 | a head that is emitted before any block above it is attached does no harm |
| MachineTheorems.ActionsCompareWithNearest | src/blockMonitor/blockchainMachine.ts:124-147 | the actions of a new head that reaches a component compare the nearest emitted state of its lineage with its own state |
| MachineTheorems.AttachedTracks | src/blockMonitor/blockchainMachine.ts:91-109 | a new block gets the fold along its lineage and carries what its parent carried |
| MachineTheorems.EmittedTracksIff | src/blockMonitor/blockchainMachine.ts:124-147 | for one component, a new head leaves every carried state right if and only if it does no harm |
| MachineTheorems.LateHeadIsMissed | src/blockMonitor/blockchainMachine.ts:134-146 | a concrete run from the start, of five events, after which a block does not carry the state of its emitted parent |
| MachineEvents.CacheEventsArePossible | src/blockMonitor/blockCache.ts:114-200 | the events that any run of `addBlock` and heads sends to the machine, with what is pruned in between, are all possible, from the empty cache or one for whose blocks the machine has no states: each attached block is new and comes with the ancestry it has in the cache at that moment, and heads are attached; at the end the history agrees with the cache |
| MachineEvents.AttachedBlocksAreTracked | src/blockMonitor/blockchainMachine.ts:11-15 | so at the end of every run of the cache in which no head does harm, each block attached on the way has the fold along its lineage and carries the nearest emitted state |
| CrashSafety.EmittedStatesHaveTheirActions | src/blockMonitor/blockchainMachine.ts:79-151 | in every run with crashes and failing writes anywhere, every emitted state in memory or on disk, of a head or copied to a block above, was recorded when the component processed a head from which the block descends, and all the actions it called for then are in the database or took effect |
| CrashSafety.HeadOnDiskHasItsActions | src/blockMonitor/blockchainMachine.ts:116-151 | and for a head whose emission is on disk there is such a record of that very head for each component |
| CrashSafety.RestartRunsTheRest | src/blockMonitor/blockchainMachine.ts:41-54 | after a restart every action that was called for and has not taken effect is running again |
| CrashSafety.NothingIsSkipped | src/blockMonitor/blockchainMachine.ts:116-151 | in every run with crashes and failing writes anywhere, a chain of comparisons without a gap, up along one chain of blocks, leads from nothing to every emitted state in memory or on disk, and all the actions along it are in the database or took effect |
| CrashSafety.InterruptedHeadIsRetried | src/blockMonitor/blockProcessor.ts:191-194 | if a head that was not written is begun again after a restart, every component compares the two states that were on disk all the while; other blocks and heads may have been written since, and the memory may have been ahead |
| CrashSafety.RunKeepsInvariant | src/blockMonitor/blockchainMachine.ts:28-54 | the invariant behind this holds in every run |
| CrashSafety.StepKeepsInvariant | src/blockMonitor/actionStore.ts:51-80 | and is kept by every step, failing writes and crashes included |
| CrashSteps.MirroredFromTheStart | src/dataEntities/block.ts:69-72 | in every run in which no write fails, crashes or not, the disk is the memory whenever no head is being processed |
| CrashSteps.CrashThenRestart | src/blockMonitor/blockchainMachine.ts:41-54 | a crash and a restart leave what is on disk as it is; the memory is read from it, and every stored action runs |
| CrashSteps.HeadToItsEnd | src/blockMonitor/blockchainMachine.ts:116-151 | after a head was processed to its end nothing is pending, and the states of all components for it are on disk as the emitted ones |
| CrashSteps.StoredActionsRun | src/blockMonitor/actionStore.ts:51-68 | actions that are stored run from then on |
| CrashSteps.ActionDone | src/blockMonitor/blockchainMachine.ts:28-38 | an action that takes effect stops running and is then removed from memory and database, and nothing else |
| CrashSteps.ActionFailed | src/blockMonitor/blockchainMachine.ts:28-38 | one that fails stays stored, and runs again after a crash and a restart |
| CrashMachine.AttachAgrees | src/blockMonitor/blockchainMachine.ts:79-114 | attaching a block in the crash model gives each component the states that the machine computes from the item store |
| CrashMachine.ProcessingAgrees | src/blockMonitor/blockchainMachine.ts:124-147 | so does processing a head, component by component |
| CrashMachine.SameActions | src/blockMonitor/blockchainMachine.ts:134-141 | and it calls for the same actions |
| CrashMachine.PruningAgrees | src/blockMonitor/blockCache.ts:91-96 | and pruning takes the same states away |
| DataRegistry.ExpiresIff | sol/contracts/DataRegistry.sol:137-149 | a shard expires from two intervals after its creation on, and, by unsigned subtraction, at any block before its creation |
| DataRegistry.DeployedHasBothShards | sol/contracts/DataRegistry.sol:113-124 | deployment creates both shards |
| DataRegistry.DatedAheadIsReplaced | sol/contracts/DataRegistry.sol:117-149 | the shard dated ahead by the constructor is replaced by the first access before its date |
| DataRegistry.RecordedIsHeld | sol/contracts/DataRegistry.sol:186-202 | a new record is the last of its list, in a shard that has not expired; other lists change only if the shard was reset |
| DataRegistry.RunKeepsRecord | sol/contracts/DataRegistry.sol:137-183 | no run of accesses before the shard is two intervals old loses a record, and lists only grow |
| DataRegistry.ReadableThroughoutIff | sol/contracts/DataRegistry.sol:137-183 | a record made within a window that starts at `start` can be read for an interval after `start` if and only if its shard was created at most an interval before `start` |
| DataRegistry.Contract.constructor | sol/contracts/DataRegistry.sol:113-124 | the loop of the constructor creates `Deployed` |
| DataRegistry.Contract.ResetDataShard | sol/contracts/DataRegistry.sol:137-149 | kills and recreates an expired shard |
| DataRegistry.Contract.FetchRecords | sol/contracts/DataRegistry.sol:176-183 | resets an expired shard before reading it |
| DataRegistry.Contract.SetRecord | sol/contracts/DataRegistry.sol:186-202 | appends to the list of the sender in the shard of the current interval and returns where the record is |
| PisaHashCalls.RespondIff | sol/contracts/PISAHash.sol:137-168 | when a response succeeds, from its inputs: a watcher sends it, the customer signed it, a precondition handler of its mode approves and there is gas; and the one record it adds, to which shard |
| PisaHashCalls.SettlementsIff | sol/contracts/PISAHash.sol:299-390 | when cancellation, refund and forfeit succeed |
| PisaHashCalls.InstallationsIff | sol/contracts/PISAHash.sol:394-425 | when modes and watchers are installed |
| PisaHashCalls.RunPays | sol/contracts/PISAHash.sol:299-352 | over every run what is owed to someone grows by the refunds paid to them, and for the administrator by the bonds of cancelled receipts, modulo 2^256, and by nothing else |
| PisaHashCalls.OwedFromTheStart | sol/contracts/PISAHash.sol:299-352 | from deployment on that is all that anyone is owed |
| PisaHashCalls.FlagRule | sol/contracts/PISAHash.sol:372-390 | the flag is raised by a forfeit and lowered by the fail-safe, which alone freezes the contract, for good |
| PisaHashTheorems.NonceRule | sol/contracts/PISAHash.sol:299-390 | the nonce of a cheated record rises to that of a successful recourse or cancellation and never changes otherwise |
| PisaHashTheorems.OneReceiptWinsOnce | sol/contracts/PISAHash.sol:197-201 | in every run, of two successful recourses or cancellations for one appointment the later has the larger nonce; so a receipt wins at most once, and none wins after a cancellation with as high a nonce |
| PisaHashTheorems.RunKeepsBalance | sol/contracts/PISAHash.sol:249-390 | in every run `pendingrefunds` is triggered records plus forfeits less cancellations of untriggered records, modulo 2^256 |
| PisaHashTheorems.PendingRefundsFromTheStart | sol/contracts/PISAHash.sol:249-390 | in particular from deployment on; so the counter is exact as an integer if and only if that sum is in range, and not after a cancellation that takes it below zero |
| PisaHashTheorems.RefundGoesThroughIff | sol/contracts/PISAHash.sol:327-346 | a triggered record can be refunded if and only if the counter is not zero |
| PisaHashTheorems.RefundGoesThrough | sol/contracts/PISAHash.sol:327-346 | without cancellations of untriggered records it always can |
| PisaHashTheorems.VainCancellationBlocksRefund | sol/contracts/PISAHash.sol:299-390 | one such cancellation blocks refund and forfeit of the only triggered record |
| PisaHashTheorems.RecourseOpensRefund | sol/contracts/PISAHash.sol:249-390 | after a successful recourse exactly refund plus bond can be refunded, once, to the customer; the deposit can be forfeited from the end of the timer on, and not after a refund |
| PisaHashTheorems.HonestWatcherIsSafe | sol/contracts/PISAHash.sol:137-294 | once a response was recorded in a shard created at most an interval before the start of an appointment, every later recourse for it with no higher nonce reverts, whatever was called in between |
| PisaHashCalls.RecourseIff | sol/contracts/PISAHash.sol:176-254 | when a recourse succeeds, from its inputs alone: not frozen, the right bond, preimage and signatures, after the finish time and less than an interval after the start, a new nonce, an installed mode whose postcondition handler agrees, and a time window such that every shard listing an answer to it is two intervals old; without a decoder the window is that of the appointment, with one the decoded one, if it is long enough and starts within the appointment; its ends are not 0 |
| PisaHashCalls.RecourseEffect | sol/contracts/PISAHash.sol:176-294 | what a successful recourse changes: the record of its id, the counter if that was not triggered before, and every expired shard is renewed |
| PisaHashCalls.OthersIff | sol/contracts/DataRegistry.sol:137-202 | others read and write the registry under their own addresses only: they add nothing to the records of the contract |
| PisaHashTheorems.RecourseSucceedsIff | sol/contracts/PISAHash.sol:176-294 | a recourse of any mode that is in order apart from its time succeeds if and only if it comes in its time and every shard that lists a record answering it has expired |
| PisaHashTheorems.RecourseCanSucceedIff | sol/contracts/PISAHash.sol:176-294 | from a block on it can succeed at some block if and only if its time is open and every shard that answers it expires before the time closes |
| PisaHashTheorems.HonestWatcherIsPunishedIff | sol/contracts/PISAHash.sol:176-294 | right after an honest response, a recourse of any mode for the same appointment id with no higher nonce, in order apart from its time, can succeed at some later block if and only if its time is open after the finish time and the shard of the response, and any other that answers it, expires before the time closes: when it was created more than an interval before the start |
| PisaHashTheorems.RunKeepsDated | sol/contracts/DataRegistry.sol:137-202 | in every run records are not older than the shard that holds them, so only empty shards are dated ahead |
| PisaHashTheorems.PunishedThoughHonest | sol/contracts/PISAHash.sol:176-294 | a concrete deployment and appointment for which it does |
| PisaHashTheorems.LookingFindsRecord | sol/contracts/PISAHash.sol:257-294 | looking through the shards finds a record with a nonce as high in a shard that has not expired |
| PisaHashContract.Pisa.DidPisaRespond | sol/contracts/PISAHash.sol:257-294 | the nested loop over shards and lists computes `Responded` |
| PisaHashContract.Pisa.Respond | sol/contracts/PISAHash.sol:137-172 | records the response or reverts, like `Step` |
| PisaHashContract.Pisa.Recourse | sol/contracts/PISAHash.sol:176-254 | accepts, or reverts with the registry rolled back, like `Step` |
| PisaHashContract.Pisa.CancelledAppointment | sol/contracts/PISAHash.sol:299-324 | settles the record and the counter, or reverts, like `Step` |
| PisaHashContract.Pisa.RefundCustomer | sol/contracts/PISAHash.sol:327-352 | refunds or reverts, like `Step` |
| PisaHashContract.Pisa.Forfeit | sol/contracts/PISAHash.sol:372-390 | forfeits or reverts, like `Step`; the counter stays |

## Left out

- Numbers: TypeScript numbers are modelled as integers, so nothing is said beyond 2^53; `BigNumber` prices are naturals. The contracts use 256-bit words with wrap-around.
- GasQueueAdd.MissingAllOrNothing: compares items as values where the source compares references; in a well-formed queue a replaced item never equals the one it replaced, since it carries another request.
- Serialisation: JSON is taken as faithful. Keys of the item store are pairs of hash and kind, not strings; keys of the action and appointment stores are strings.
- BlockCacheService.LiveCache.AddBlock: keeps its own maps of blocks, flags and heights instead of sharing the item store, which is modelled separately in `BlockItemStore`. Its restart is modelled on values, in `BlockCacheRestart`.
- BlockProcessorService.Processor.ProcessBlockNumber: is given the answers of the provider for a number of batches, because the loop of the source need not end; calls that overlap appear only as a later hash in `Settle`.
- BlockchainMachine.Machine.ProcessNewHead: hands the actions to run back to its caller; that they run, fail, and are run again after a restart is modelled in `CrashSafety`. Identifiers are given and new.
- MachineEvents.CacheEventsArePossible: is about a cache that keeps its invariant; that the events of a cache after a restart are possible is not shown, though `MachineTheorems.RunTracks` covers machines that start over cached blocks.
- MachineTheorems.RunTracks: takes the reducer of a component as fixed; collections that change between blocks are the subject of `MappedReducer.MappedFoldIsPointwise`.
- Watcher.StartedExactlyOnce: is about one chain of emitted heads; across a reorganisation a response may be started again.
- CrashSafety.InterruptedHeadIsRetried: a restart need not begin the interrupted head again, because start-up processes the last written head number without announcing it; the next head that is begun compares with a state that `CrashSafety.NothingIsSkipped` covers.
- CrashSafety.EmittedStatesHaveTheirActions: actions run at least once, not exactly once; a head that is reprocessed stores its actions again under new identifiers.
- PisaHash: `withdraw`, signature recovery, the k-of-n check of the fail-safe and the call to the customer's contract are left out, and handlers do not call back into the contract; others' use of the registry is a step of its own.
- DataRegistry: hashes are stored like records, so `setHash`, `fetchHash` and single-record reads add nothing and are left out, as are events.
- Logging, HTTP, configuration, appointment validation, gas price estimation and the client library are left out: they hold no state that these properties depend on, or only easy branches.
- `Deposits.sol`, `MultiChannelContract.sol`, `CommandChannelHandler.sol` and the mocks are left out: simple bookkeeping.
