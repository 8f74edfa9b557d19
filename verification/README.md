# Verified cores of a concurrent go-ethereum fork

A Dafny model of the stateful parts of an Ethereum client: the transaction pool, the
concurrent ether transfer and gas pool this fork adds, canonical chain maintenance, gas and
ether accounting of a block, the chain indexer, the event feed and the light client's request
distributor. `dafny verify dfyconfig.toml` checks the whole project.

Objects whose methods update fields are classes; loops are loops. Code that runs concurrently is
a state machine with one atomic operation per step, any number of threads and any schedule.
Every operation keeps the invariant of its object, and the results below are about every run,
every interleaving or every input.

| files | models |
|---|---|
| `Prelude` | optional values and 64-bit words |
| `Transactions`, `Heaps`, `TxList` | nonce-sorted lists: hash map, heap of keys, cached order, cost and gas caps |
| `TxPriced` | the price heap with lazily discarded stale entries |
| `PoolLists`, `PoolRules`, `FairShare`, `QueueCap`, `Promotion`, `Admission`, `TxPool` | the pool: pending and queued lists, admission, promotion, demotion, slot sharing, heartbeats, resets |
| `Reinjection` | the transactions that a reorganisation dropped from the chain |
| `PoolExamples` | runs of the pool in which a promise of the code's comments fails |
| `Transfer`, `GasPool`, `Ledger` | two-account try-lock transfers and the compare-and-swap gas pool |
| `BlockTree`, `HeaderChain`, `BlockChain` | header and block trees, fork choice, reorganisation, lookup table |
| `StateTransition`, `StateProcessor`, `GasLimit` | gas purchase, execution, refund, receipts, gas limit targeting |
| `ChainIndexer`, `Feed`, `Distributor` | section indexing, select-list broadcasting, request scheduling |

Assumptions: transaction and block hashes are injective, so a transaction stands for its hash
and a block's hash determines it. Go map iteration order and queue priorities among equals are
arbitrary choices. Random tie-breaks (`coin`) and clock readings (`now`) are parameters. The virtual machine is a parameter
of which only "gas returned is at most gas supplied" is used, plus "creates and destroys no
ether" where ether is counted.

## What the proofs brought out

- **Gas limit.** For limits from 5000 up, the limit a miner computes is rejected by header
  verification exactly when the parent's limit is below 5120, the parent was at least nearly full
  and the result is not clamped (`GasLimit.LimitAcceptable`, `GasLimit.OvershootExample`).
- **Transfer.** A transfer from an account to itself releases its mark twice and lets two other
  threads into one account; a transfer is safe in any company exactly when its accounts differ
  (`Transfer.SafeIffDistinct`).
- **Side chains.** The difficulty total that `insertSidechain` compares at the end is missing
  exactly when all blocks it takes of the batch are canonical already
  (`BlockChain.BlockChain.InsertSidechain`). It is entered only if a parent's state was pruned, so
  importing the head again does not get there, but importing again a canonical block below the head
  does once its state and its parent's are pruned (`BlockChain.CanonicalBatch`).
- **Fork choice.** Whatever the order in which blocks arrive and however ties are settled, the head
  has the greatest total difficulty of all executed blocks and, among those, the lowest number; so
  two runs over the same blocks can differ only in blocks equal in both (`BlockChain.BestAgree`).
- **Rewinding headers.** `SetHead` leaves a parent-closed tree exactly when no side branch forks
  off above the new head, and the head stays the heaviest header exactly when no side header is
  heavier (`HeaderChain.HeaderChain.SetHead`, `HeaderChain.OrphanAfterRewind`).
- **Indexer.** Clearing the sections after a failed backend reset happens outside the lock, so a
  re-organisation notification can run `setValidSections` at the same time. In every run in which
  the two never overlap, the stored heads are one parent chain and, whenever nobody is changing the
  index, heads, count and memory agree (`ChainIndexer.SeparateRunsAgree`). A notification that
  arrives at any point of a clearing is harmless exactly when it does not shorten the index as
  counted then (`ChainIndexer.HarmlessIff`). Overlapping runs end with a count for sections that are gone, with
  a head nobody owns, with sections whose heads are gone, or with a section counter of 2^64-1
  (`OvertakenClearing`, `OrphanedHead`, `LostHeads`, `WrappedCounter`).
- **Queue limit.** A comment in core/tx_pool.go says the oldest accounts are dropped first. The
  code takes accounts from the end of a list sorted by increasing heartbeat, that is, the most
  recently active first (`QueueCap.TrimmedByBeat`, `PoolExamples.NewestGoesFirst`). Only accounts
  with pending transactions have a heartbeat, so these lose what they have queued before any account
  that has nothing pending loses anything (`Promotion.IdleKeepLongest`). The comment
  holds exactly when nothing has to go, when everything remote has to go, or when all remote
  accounts were last active at the same time (`QueueCap.OldestFirstIff`).
- **Slot sharing.** The nested equalisation loops amount to one rule: every remote account is cut
  to a common level, the highest one at which everything fits, but never below the guaranteed
  allowance (`FairShare.FairMeans`).
- **Price heap.** A transaction that leaves a queue and comes back while its stale entry is still
  in the heap has two entries (`PoolExamples.LeaveAndReturn`, `PoolExamples.DoubleEntry`), and
  `Discard` on such a heap can return it twice and take out less than asked for
  (`TxPriced.DiscardTwice`). It repeats a transaction only if two of its entries are among the
  first to go, and, where the heap order leaves no tie, exactly then (`TxPriced.RepeatsExactly`).
  The pool never gets there: in every run it is within its capacity, or holds at most one remote
  transaction, with one entry. So what it discards is distinct, and as much as asked for or all
  that is remote (`PoolRules.DiscardMakesRoom`); a pool is still full after making room exactly
  when it holds too few remote transactions (`TxPool.TxPool.MakeRoom`).
- **Resets.** A new head brings back exactly the transactions of the abandoned branch that the new
  branch lacks (`Reinjection.DroppedIff`). If the pool then takes a transaction of an account and
  refuses an earlier one, for example as too cheap, its pending list is left with a gap and the
  pending nonce behind it (`PoolExamples.GapAfterReset`). Demotion and the
  recomputed nonces give gapless lists exactly when what is executable of the lists after
  reinjection has no gap (`PoolRules.ResetContiguous`).
- **Failing messages.** A message that fails after its gas was bought leaves the block's gas pool
  and the sender charged for its whole limit (`StateTransition.StateTransition.TransitionDb`).
- **Request queue.** Queueing a request that is queued already leaves an entry that no cancellation
  removes (`Distributor.RequestDistributor.QueuedAgain`).

## Model

| member | source | states |
|---|---|---|
| Transactions.FilteredParts | core/tx_list.go:290-314 | filtering splits a list into kept, unpayable and invalidated parts that share nothing and lose nothing; in strict mode everything kept is below everything given up |
| Transactions.LowestAreLow | core/tx_list.go:127-148 | every nonce within a size limit is below every nonce beyond it |
| Heaps.RootIsLeast | core/tx_list.go:30-48 | the root of a nonce heap is its least element, from the parent-child order alone |
| TxList.FlatSorts | core/tx_list.go:203-216 | the flattened list is strictly increasing by nonce and holds exactly the map's transactions |
| TxList.FlatSplit | core/tx_list.go:84-98 | the sorted order splits where the map is split at a nonce, so dropping a front of the cache keeps it right |
| TxList.FlatLowest | core/tx_list.go:127-148 | the lowest k nonces are the first k of the sorted order, so truncating the cache keeps it right |
| TxList.TxSortedMap.Put | core/tx_list.go:73-79 | overwrites one nonce; index stays a duplicate-free heap of exactly the keys, and no stale cache survives |
| TxList.TxSortedMap.Forward | core/tx_list.go:84-98 | removes exactly the nonces below the threshold, returns them in order, cache still equals the sorted contents |
| TxList.TxSortedMap.Filter | core/tx_list.go:102-123 | removes and returns, each once, exactly what the filter matches; heap and cache stay in step |
| TxList.TxSortedMap.Cap | core/tx_list.go:127-148 | keeps exactly the lowest nonces within the limit and returns exactly the others |
| TxList.TxSortedMap.Remove | core/tx_list.go:152-169 | reports whether the nonce was there and removes it from map and heap |
| TxList.TxSortedMap.TakeReady | core/tx_list.go:178-193 | takes the unbroken run at the front, in order, if it starts at or below the given nonce, and nothing else |
| TxList.TxSortedMap.Flatten | core/tx_list.go:203-216 | with or without a cache the result is the sorted contents |
| TxList.TxList.Add | core/tx_list.go:251-272 | accepts exactly free nonces and sufficiently dearer replacements, reports what was replaced, caps still bound every item |
| TxList.TxList.Filter | core/tx_list.go:290-314 | the cap shortcut gives the same kept, removed and invalidated transactions as examining every item |
| TxList.TxList.Remove | core/tx_list.go:325-336 | removes one nonce; a strict list also gives up and returns exactly the later ones |
| TxPriced.TxPricedList.Removed | core/tx_list.go:421-436 | counts a stale entry or rebuilds the heap past a quarter; no live transaction loses its entry |
| TxPriced.TxPricedList.Cap | core/tx_list.go:440-467 | returns exactly the remote live transactions below the threshold despite stale entries, and keeps an entry for all others |
| TxPriced.TxPricedList.Underpriced | core/tx_list.go:471-493 | same answer as a scan of all live transactions for the lowest price |
| TxPriced.TxPricedList.Discard | core/tx_list.go:497-520 | takes the requested number of entries or every entry of every live remote transaction; no live remote entry left is worse than one taken; if it runs short, nothing stale and nothing remote is left |
| TxPriced.RepeatsExactly | core/tx_list.go:497-520 | a transaction is returned twice only if it has two entries and fewer than count - 1 live remote entries go before it; exactly then where the order has no ties |
| TxPriced.RepeatsIff | core/tx_list.go:497-520 | asked for everything, it returns each live remote transaction as often as it has entries, so once each exactly if no transaction has two |
| TxPriced.SingleMakesRoom | core/tx_list.go:497-520 | with one entry per live remote transaction the result is distinct and as long as asked for, or all of them |
| TxPriced.DiscardTwice | core/tx_list.go:421-436 | four transactions, one removed and put again: a discard of two returns that one twice |
| PoolLists.Redistribute | core/tx_pool.go:898-937 | moving one account's transactions between its lists and forgetting some keeps the two lists a partition of the known transactions |
| PoolLists.PartitionSize | core/tx_pool.go:519-529 | the lengths of all pending and queued lists add up to the number of known transactions, which the capacity check counts |
| PoolLists.FoundByNonce | core/tx_pool.go:872-888 | for a known transaction the nonce alone tells which list holds it, and that list holds this very transaction |
| PoolLists.Removal | core/tx_pool.go:898-937 | the lists after a removal partition exactly the known transactions without the removed one |
| PoolRules.ReadyExtends | core/tx_pool.go:976-982 | what is ready starts exactly at the end of a gapless list and extends it to a longer gapless list |
| PoolRules.PromotionContiguous | core/tx_pool.go:942-997 | promoting keeps pending lists gapless from the state nonce to the pending nonce |
| PoolRules.PromotionQuiets | core/tx_pool.go:942-997 | promotion is complete: afterwards everything the account has queued has a gap before it |
| PoolRules.QuietIff | core/tx_pool.go:976-982 | an account has nothing to promote exactly when every live queued nonce is beyond its pending nonce |
| PoolRules.ExecutableInterval | core/tx_pool.go:1118-1158 | demotion turns a gapless list into one that is empty or gapless from the account's new nonce |
| PoolRules.DemotionParts | core/tx_pool.go:1118-1158 | what demotion drops, requeues and keeps are the parts of the strict filter, with everything requeued if the front is missing |
| PoolRules.ResetContiguous | core/tx_pool.go:424-456 | after demotion and recomputed pending nonces the lists are gapless exactly when what was executable of each had no gap |
| PoolRules.GaplessSeamless | core/tx_pool.go:424-456 | gapless lists meet that condition at any new head |
| PoolRules.DiscardMakesRoom | core/tx_pool.go:653-667 | in a pool within capacity, or with one remote transaction with one entry, a discard never repeats and makes the room asked for |
| PoolRules.RoomyEnters | core/tx_pool.go:639-710 | adding a transaction after room was made keeps the pool within capacity or down to one remote transaction with one entry |
| FairShare.FairMeans | core/tx_pool.go:1002-1072 | after sharing: total within the limit or every remote account within its allowance; locals and small accounts untouched; nobody keeps more than an account that was cut |
| FairShare.MixedAll | core/tx_pool.go:1017-1067 | one round over the offenders lowers the common level by exactly one |
| FairShare.LowestTwice | core/tx_list.go:127-148 | cutting to k and then to j is cutting to j |
| FairShare.Count | core/tx_pool.go:1003-1006 | adds up the sizes of all lists whatever the iteration order |
| QueueCap.TrimmedMeans | core/tx_pool.go:1073-1112 | trimming keeps the lowest nonces of every account and everything local, and cuts an account only if all later ones in the order lost everything |
| QueueCap.TrimmedByBeat | core/tx_pool.go:1073-1112 | a remote account is cut only if every more recently active remote account lost everything |
| QueueCap.OldestFirstIff | core/tx_pool.go:1073-1112 | least active accounts go first exactly when nothing or everything remote has to go or all were last active at the same time |
| TxPool.TxPool.constructor | core/tx_pool.go:237-283 | a new pool has workable settings, is empty, and satisfies the partition and gapless invariants |
| PoolRules.Config.Sanitize | core/tx_pool.go:161-196 | the result is workable, and workable settings are unchanged |
| TxPool.TxPool.ValidateTx | core/tx_pool.go:588-629 | accepts exactly the signed, small enough, affordable transactions with enough gas for their data, within a block, not below the state nonce, and at the price floor unless local |
| TxPool.TxPool.PromoteTx | core/tx_pool.go:756-789 | inserts exactly when the price rule allows, forgets what was replaced or else the newcomer, moves the pending nonce behind it and notes the time |
| TxPool.TxPool.EnqueueTx | core/tx_pool.go:715-738 | inserts exactly when the price rule allows; known transactions and price heap follow |
| TxPool.TxPool.EnqueueAll | core/tx_pool.go:1143-1147 | requeueing known transactions of nonces the queue does not hold never fails and changes no known transaction |
| TxPool.TxPool.RemoveTx | core/tx_pool.go:898-937 | removes the given transaction and no other; later pending ones of its account move to the queue; the pending nonce follows; both invariants are kept |
| TxPool.TxPool.PromoteAccount | core/tx_pool.go:954-997 | exact new lists and pending nonce of the account; both invariants are kept |
| TxPool.TxPool.DemoteAccount | core/tx_pool.go:1120-1157 | exact new lists of the account; the partition is kept |
| TxPool.TxPool.DemoteUnexecutables | core/tx_pool.go:1118-1158 | every account is demoted as if alone, whatever the iteration order |
| TxPool.TxPool.SyncNonces | core/tx_pool.go:448-452 | the pending nonce of every pending account is the one behind its last transaction |
| TxPool.TxPool.CutRound | core/tx_pool.go:1030-1046 | cutting every offender once takes the remote accounts from one common level to the next lower one |
| TxPool.TxPool.CutDown | core/tx_pool.go:1053-1067 | repeats rounds until everything fits or the floor is reached, stopping at the first level that fits |
| TxPool.TxPool.Equalise | core/tx_pool.go:1002-1072 | terminates with the highest common level at which everything fits, or the allowance; both invariants are kept |
| TxPool.TxPool.PopOffenders | core/tx_pool.go:1017-1050 | taking up the largest accounts one by one keeps all offenders at one common level, the size of the latest |
| TxPool.TxPool.CapQueue | core/tx_pool.go:1073-1112 | queued total within the limit or only locals queued; drops no more than needed, from the end of the given order, highest nonces first; pending untouched |
| TxPool.TxPool.Remotes | core/tx_pool.go:1079-1086 | the remote accounts of the queue, each once, by increasing heartbeat |
| TxPool.TxPool.TrimQueue | core/tx_pool.go:1073-1112 | with the accounts ordered by heartbeat: a remote account is cut only if every more recently active one lost everything; when the opposite order would hold too; limit met or only locals left |
| TxPool.TxPool.PromoteExecutables | core/tx_pool.go:942-1113 | the exact lists, pending nonces and heartbeats once each account was promoted as if alone, whatever the order; then a fair share of the slots and a queue cut from the most recently active account on; both limits hold up to locals and allowances; nothing promotable is left; all invariants are kept |
| TxPool.TxPool.MakeRoom | core/tx_pool.go:653-667 | in a full pool: underpriced exactly when remote and no dearer than every pooled transaction; else the worst remote transactions go, distinct, as many as needed or all, and the pool is still full exactly when there were fewer |
| TxPool.TxPool.Add | core/tx_pool.go:639-710 | the exact outcome: known, invalid, underpriced in a full pool, replacement underpriced exactly when a rival that is not outbid is left, added otherwise; a full pool makes exactly the room needed or drops all that is remote; unless it was full, the exact new lists; a refused transaction leaves no trace; who becomes local; invariants kept |
| TxPool.TxPool.AddTx | core/tx_pool.go:820-835 | the same decision; unless the newcomer replaced another, its account is then promoted exactly as promotion says and the limits take what a fair share and the order of heartbeats make them take, so which pending and queued transactions leave is determined up to ties |
| TxPool.TxPool.AddTxs | core/tx_pool.go:847-868 | every transaction is decided on in turn, with the exact result each time, from what the earlier ones left; then exactly the accounts that got a new one are promoted and the limits enforced |
| TxPool.TxPool.SetGasPrice | core/tx_pool.go:489-498 | exactly the remote transactions below the new price leave the pool |
| TxPool.TxPool.Evict | core/tx_pool.go:335-350 | exactly the queues of remote accounts without a heartbeat, or with one older than the lifetime, are emptied; pending lists, nonces and heartbeats stay; every evicted transaction leaves a stale heap entry unless that rebuilds the heap |
| TxPool.TxPool.StatusOf | core/tx_pool.go:872-888 | reports pending or queued exactly when that list holds the transaction |
| TxPool.TxPool.Reset | core/tx_pool.go:376-456 | nothing happens if the branches do not meet in the store or the state is missing; else exactly what the abandoned branch lost is offered again, each decided on in turn, the lists are cut to what is executable, nonces recomputed, every queued account promoted, limits enforced; the cut lists are gapless exactly if what was executable had no gap |
| TxPool.Run | core/tx_pool.go:286-362 | in every run of additions, repricings, evictions and resets the lists partition the known transactions, each with a heap entry; exactly the accounts with pending transactions have a heartbeat; the pool is within capacity or holds at most one remote transaction, with one entry; lists stay gapless if nothing is reinjected |
| Promotion.PromotedOne | core/tx_pool.go:954-997 | promoting one more account, or one again, gives what promoting each account once from the start gives |
| Promotion.PromotingQuiets | core/tx_pool.go:942-997 | promoted accounts and accounts with nothing queued have nothing left to promote |
| Promotion.IdleKeepLongest | core/tx_pool.go:1073-1112 | the queue limit takes nothing from an account without pending transactions before an account with some has lost all it has queued |
| Admission.KnownWasAdded | core/tx_pool.go:847-868 | whatever a batch makes known was reported as added |
| Reinjection.TxDifference | core/types/transaction.go:286-301 | the transactions of the first list that are not in the second, in order |
| Reinjection.Descend | core/tx_pool.go:395-408 | reaches the ancestor at the given number with the transactions on the way, and fails exactly when a block is missing |
| Reinjection.Converge | core/tx_pool.go:409-420 | ends at the last number at which both branches have the same block, or finds that there is none |
| Reinjection.FindDropped | core/tx_pool.go:376-423 | what is to be reinjected: nothing for a child or a distant head, else the difference of the branches above their last common block, or failure exactly if they have none in the store |
| Reinjection.DroppedIff | core/tx_pool.go:376-423 | a transaction comes back exactly if a block of the old branch above the last common one holds it and no such block of the new branch does |
| Reinjection.ChildDropsNothing | core/tx_pool.go:380-380 | for a child of the old head the shortcut loses nothing |
| PoolExamples.LeaveAndReturn | core/tx_pool.go:898-937 | a queued transaction that leaves and comes back has one more heap entry than before, unless the heap was rebuilt in between |
| PoolExamples.DoubleEntry | core/tx_list.go:421-436 | additions, an eviction and one more addition that end with two entries of one pooled remote transaction |
| PoolExamples.NewestGoesFirst | core/tx_pool.go:1073-1112 | additions in which the queue limit takes everything queued of the account that was active later and nothing of the other |
| PoolExamples.GapAfterReset | core/tx_pool.go:376-456 | a reorganisation of two blocks that ends with pending nonces 3 and 5 and a pending nonce of 6 |
| Transfer.StepKeepsInv | core/evm.go:97-113 | any step of any thread keeps the invariant behind exclusion and accounting |
| Transfer.InvExclusive | core/evm.go:97-113 | no two threads are inside the update of the same account |
| Transfer.InterleavingIsSerial | core/evm.go:97-113 | every interleaving of transfers between distinct accounts ends with the balances of any serial order |
| Transfer.TotalConserved | core/evm.go:97-113 | at every moment balances plus ether in flight is constant |
| Transfer.SomeProgress | core/evm.go:97-113 | from any reachable unfinished state two steps suffice for progress |
| Transfer.CanComplete | core/evm.go:97-113 | from any reachable state some schedule completes all transfers |
| Transfer.SelfTransferBreaksExclusion | core/evm.go:97-113 | any self-transfer, in suitable company, lets two threads into one account |
| Transfer.SafeIffDistinct | core/evm.go:97-113 | a transfer is safe in every company exactly when its accounts differ |
| GasPool.StepConserves | core/gaspool.go:30-54 | pool plus gas taken is constant under any step; the swap never underflows, the separate overflow check never fires and the add never wraps |
| GasPool.EveryInterleavingConserves | core/gaspool.go:30-54 | in every interleaving nobody panics, and at the end the pool holds the limit minus what accepted jobs burned |
| GasPool.AllAcceptedIff | core/gaspool.go:41-54 | no interleaving turns a job away exactly when the limits of all jobs together fit the block |
| GasPool.OneIsRejected | core/gaspool.go:41-54 | jobs that do not fit together, taking their gas one after the other, end with one turned away |
| GasPool.CanFinishFrom | core/gaspool.go:40-54 | from any state some schedule finishes all threads: the retry loop cannot deadlock |
| BlockTree.MeetAgree | core/headerchain.go:169-181 | two chains that share a block share everything below it |
| BlockTree.UpUp | core/headerchain.go:332-362 | ancestors compose: j generations above the k-th ancestor is the (j+k)-th |
| BlockTree.InsertKeepsTree | core/headerchain.go:134-150 | adding a header with a known parent keeps the tree parent-closed and total difficulties additive |
| HeaderChain.HeaderChain.WriteHeader | core/headerchain.go:134-198 | canonical numbering is exactly the parent chain of the head with nothing above; higher difficulty wins, so the head stays the heaviest of all headers; rewriting stops at the highest shared block |
| HeaderChain.HeaderChain.InsertHeaderChain | core/headerchain.go:266-302 | a linked batch is stored whole or not at all; the head's difficulty never falls and the head stays the heaviest |
| HeaderChain.HeaderChain.DropAbove | core/headerchain.go:158-167 | deletes exactly the canonical numbers above the new head |
| HeaderChain.HeaderChain.Reroute | core/headerchain.go:169-181 | below the new head every number points into its chain; the walk ends at the common ancestor |
| HeaderChain.HeaderChain.GetAncestor | core/headerchain.go:332-362 | a found ancestor is the one reached by walking parents; failure exactly when too deep or the budget is shorter than the way to the canonical chain; exact remaining budget |
| HeaderChain.HeaderChain.SetHead | core/headerchain.go:462-497 | deletes exactly the canonical headers above; the chain stays valid exactly when no side branch forks off above, and the head heaviest exactly when no side header is heavier |
| HeaderChain.AncestorsLighter | core/headerchain.go:134-150 | total difficulty never falls along a chain |
| HeaderChain.OrphanAfterRewind | core/headerchain.go:462-497 | a rewind to the genesis below a fork leaves a header without parent that is heavier than the head |
| BlockChain.ReorgLookup | core/blockchain.go:1507-1524 | overwriting the old chain's lookup with the new branch and deleting the difference gives the new chain's lookup |
| BlockChain.ChainSplit | core/blockchain.go:1428-1524 | the lookup of a chain is that of its lower part plus that of the branch above |
| BlockChain.BlockChain.Reorg | core/blockchain.go:1428-1524 | numbers up to the new head and the whole lookup table are those of the new chain, for longer, equal and shorter branches |
| BlockChain.BlockChain.FindCommon | core/blockchain.go:1477-1495 | both walks end at the common ancestor having collected exactly the two branches |
| BlockChain.BlockChain.Store | core/blockchain.go:921-931 | total difficulty stays parent's plus own, and no stored value changes |
| BlockChain.BlockChain.WriteBlockWithState | core/blockchain.go:943-1066 | canonical numbering and lookup follow the head; the head has the greatest difficulty of all executed blocks and the lowest number among those; difficulty never falls, and at equal difficulty the number never rises |
| BlockChain.BestAgree | core/blockchain.go:1029-1043 | of the blocks executed, another one could be head exactly when it has the head's total difficulty and number |
| BlockChain.BestGrows | core/blockchain.go:1029-1043 | making the better of head and new block the head keeps it the best of all |
| BlockChain.BlockChain.InsertSidechain | core/blockchain.go:1313-1372 | which blocks of the batch are taken, the first one having a pruned parent; accumulated totals equal stored ones across skipped blocks; a copied state root is refused; the total is missing exactly when all blocks taken are canonical |
| BlockChain.BlockChain.Gather | core/blockchain.go:1374-1388 | collects exactly the blocks without state from the last one of the batch down to its first ancestor with state, or finds that there is none |
| BlockChain.CanonicalBatch | core/blockchain.go:1313-1372 | of four canonical blocks the middle two lose their states and the second of them is imported again: there is no total to compare |
| ChainIndexer.StepKeepsInv | core/chain_indexer.go:239-496 | every access of notifications and of the unlocked worker keeps the invariant as long as no shortening notification overlaps a clearing |
| ChainIndexer.CommitKeepsInv | core/chain_indexer.go:313-363 | a finished section is committed only if it continues what is stored |
| ChainIndexer.SeparateRunsAgree | core/chain_indexer.go:239-496 | in every run without such an overlap, stored heads are one parent chain a section apart, and when nobody is changing the index, keys, persisted count and memory agree |
| ChainIndexer.HarmlessIff | core/chain_indexer.go:239-279 | a notification arriving at any point of a clearing is harmless, in every interleaving of the two, exactly when it does not shorten the index as counted then |
| ChainIndexer.OvertakenClearing | core/chain_indexer.go:453-465 | a run that persists a count of one for no section |
| ChainIndexer.OrphanedHead | core/chain_indexer.go:453-496 | a run that leaves a section head behind for good |
| ChainIndexer.LostHeads | core/chain_indexer.go:453-465 | a run that ends with one stored section and no section head |
| ChainIndexer.WrappedCounter | core/chain_indexer.go:453-465 | a run in which the section counter wraps around to 2^64-1 |
| Feed.Find | event/feed.go:213-220 | the first index of a channel, or -1 exactly if it is absent |
| Feed.DeleteInPlace | event/feed.go:223-225 | shifting in place removes exactly one case and keeps the order |
| Feed.DeactivateInPlace | event/feed.go:228-232 | swaps a case behind the active prefix |
| Feed.DeactivateMembers | event/feed.go:228-232 | deactivating moves exactly one channel from the active to the served part |
| Feed.DeleteMember | event/feed.go:104-125 | deleting a channel removes exactly that one |
| Feed.StepKeepsInv | event/feed.go:104-190 | every step keeps the invariant and a removal always finds its channel |
| Feed.EveryInterleavingDelivers | event/feed.go:129-190 | each channel there at the start gets the value exactly once or left before; the count is the number of deliveries; the active prefix is the not-yet-served part |
| Feed.DroppedOnlyByRemoval | event/feed.go:168-180 | a channel leaves unserved only by its own unsubscription during the send |
| Distributor.RequestDistributor.Queue | les/distributor.go:233-260 | inserts by creation order, a resent request at its old place, a new one at the end; the queue stays free of repeats exactly if the request was not queued |
| Distributor.RequestDistributor.QueuedAgain | les/distributor.go:233-285 | a request queued while it is queued stays in the queue after being cancelled twice |
| Distributor.RequestDistributor.Cancel | les/distributor.go:265-276 | succeeds exactly for requests with an open channel and removes just one entry of that one |
| Distributor.RequestDistributor.Remove | les/distributor.go:279-285 | takes out one request and keeps the order of the others |
| Distributor.RequestDistributor.NextRequest | les/distributor.go:178-227 | the chosen request is the oldest its peer could take, with the shortest wait; requests are dropped only from the front and only if nobody can serve them |
| Distributor.Offer | les/distributor.go:191-212 | a request is offered to exactly the peers that could take no older one |
| StateTransition.IntrinsicGas | core/state_transition.go:80-110 | the 64-bit computation equals the exact price and fails exactly when that does not fit |
| StateTransition.GasUsed | core/state_transition.go:248-269 | the refund never exceeds half of the gas spent |
| StateTransition.SettlementConserves | core/state_transition.go:200-264 | prepaid gas ether equals refund plus fee even if sender and coinbase coincide |
| StateTransition.StateTransition.BuyGas | core/state_transition.go:154-168 | which error when; balance and pool are both charged or neither |
| StateTransition.StateTransition.RefundGas | core/state_transition.go:248-264 | refund is the counter or half the gas spent; remaining gas goes back to sender and pool |
| StateTransition.StateTransition.TransitionDb | core/state_transition.go:200-246 | which error when; pool and balances untouched if the gas could not be bought, charged for the whole limit if it fails later; on success the pool lost exactly the gas used and balances are settled |
| StateProcessor.ApplyTransaction | core/state_processor.go:89-131 | receipt, running gas, pool and log numbering agree; ether is conserved |
| StateProcessor.Finalize | core/state_processor.go:79-81 | the total grows by exactly the rewards |
| StateProcessor.Process | core/state_processor.go:57-83 | cumulative gas is the prefix sum, each transaction fit what was left, total within the limit, logs numbered without gaps, total ether grows by exactly the engine's rewards |
| StateProcessor.SetReceiptsData | core/blockchain.go:791-826 | fills every derived field in place, or refuses a mismatched list untouched |
| StateProcessor.ReceiptsRoundTrip | core/blockchain.go:791-826 | recomputing the derived fields of a processed block's receipts gives the receipts back |
| GasLimit.NoWraparound | core/block_validator.go:108-139 | no 64-bit operation wraps for a valid parent |
| GasLimit.LimitAcceptable | core/block_validator.go:108-139 | the computed limit passes header verification exactly outside one named family of parents |
| GasLimit.OvershootExample | core/block_validator.go:108-139 | a full block at the minimum limit leads to a limit that verification rejects |
| GasLimit.ChainConverges | core/block_validator.go:108-139 | under any usage the limit enters the target range within a third of its distance in blocks and stays |

## Left out

- TxPool.TxPool.Reset: the final lists are stated to be gapless if what was executable had no gap, not only if: sharing out the slots can also cut a gap away. The state at the new head is a parameter and not derived from the blocks. Both heads are stored blocks; without the old one the code fails.
- TxPool.TxPool.Add: the order in which a full pool removes what it drops, and so the lists in between, is not stated.
- The pool holds account lists as values rather than list objects. It uses the functions that the operations of `TxList` are proved to compute; aliasing between the pool and a list is not modelled.
- TxPriced.TxPricedList.Removed: `stales` is not claimed to equal the number of stale entries, and the code does not keep it so.
- Nonces in the pool's lists are unbounded; a nonce of 2^64-1 followed by an increment is not modelled.
- The transaction journal, metrics, logging, timers and pool events.
- The contents of the library's binary heap, sort and priority queue; their contracts are used.
- Signature recovery, hashing, consensus engines and the interpreter of the virtual machine.
- Block-mode rewinding, state pruning and commitment, caches, and the database encoding.
- Removed-log collection and event posting in `reorg`; head-header and fast-block pointers in `insert`.
- Transfer.InterleavingIsSerial: fairness of the backoff is not modelled; completion is possible from everywhere, not guaranteed under every scheduler.
- StateProcessor.Process: cumulative gas is stated for sequential processing only; account nonce checking, which `preCheck` bypasses, is not modelled; the engine's rewards are a parameter.
- ChainIndexer.SeparateRunsAgree: a run with an overlap may still end well by luck; checkpoints and cascading to child indexers are not modelled.
- Feed.EveryInterleavingDelivers: each subscription uses its own channel; type checks on channels are not modelled.
- Distributor.RequestDistributor.NextRequest: the weighted random choice among peers without waiting is an arbitrary choice.
- Network protocols, RPC, user interfaces, accounts, the light client's cost tracker and free client pool.
