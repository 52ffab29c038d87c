# ligo-chain: stateful cores, modelled and proved in Dafny

This project models the node's hand-written stateful structures and proves what they keep true
over whole runs. `dafny verify dfyconfig.toml` checks everything.

- **Transaction pool** (`TxSortedMap`, `TxList`, `TxPricedList`, `Pool*`, `TxPool`). The heap-indexed
  nonce map and the capped nonce list refine plain values. The pool's `pending`, `queue`, `all`, price heap
  and virtual nonces are updated in place by the operations of the source. Over every run, `all` is the
  disjoint union of pending and queue, every pooled transaction has a price heap entry, and no queued list is
  empty. While state nonces do not go backwards, each account's pending nonces are the interval from its state
  nonce to its virtual nonce and nothing executable waits in the queue. Nothing remote is ever below the price
  floor. Overflow eviction ends within the limits and is fair, and a newcomer costs a full pool no more than its
  own place. A new head throws back exactly the transactions that the reorg lost, and those still valid are known
  again. All this holds over the pool's loop over chain heads, also when following a head fails.
- **Event feed** (`Feed`). The in-place case list with its aliased prefix, as atomic steps in any order: one
  send serves everyone subscribed at its start exactly once, except those removed before.
- **Canonical chain** (`ChainTree`, `HeaderChain`, `Reorg`). The number index is the head's ancestry over every
  run of insertions and rewinds that does not crash, and through a reorg; when an insertion crashes, and when the
  lookup index follows a reorg, is stated exactly.
- **Gas and fees** (`Gas`, `BlockFill`, `Ledger`). Gas and money are conserved over a block and over a miner's
  fill, which takes the best paid account first and each account's transactions in order. Every transaction uses
  up its sender's nonce, so none goes through twice. When a fill keeps the block's gas limit is stated exactly.
- **Peer-to-peer** (`Dial`, `Protocols`). The dial scheduler's budget, whom it dials and how long it waits, and
  over every run the distance between two dials of a node; the message code table, and when both ends work it out
  alike.
- **Smaller pieces.** Section commits under interleaved reorgs (`ChainIndexer`), side-chain settlement with who
  pays whom (`SideChain`), gas limit convergence (`GasLimit`), memoised block hashes (`BlockHash`).

## How the model reads

- A transaction, header or block is identified by its value or hash; hashes are injective.
- Clock readings, chain state, database answers, random choices, the virtual machine, contract callbacks and
  the verdict of signature, address and contract checks are parameters.
- Steps of different goroutines interleave only where the source gives up a lock or a channel.
- A run is a list of steps taken one after the other. Each method `Run` returns a trace of the states between
  them, and a predicate `Follows` says what each step does.
- Where the comments and the code of the source disagree, the model follows the code.
  - The queue pass is said to drop the oldest accounts, but drops the latest heartbeat first
    (core/tx_pool.go:1102, 1119-1123).
  - The lifetime is said to bound the time in the queue (core/tx_pool.go:143). But heartbeats are kept for accounts
    with pending transactions only: without those a remote queue goes at the next look, and with a recent promotion
    it stays (`TxPools.TxPool.Expire`, `TxPools.TxPool.RunThenExpire`).
- Some promises fail in corner cases. Each has a concrete input and the exact condition.
  - Eviction empties pending lists exactly if accounts have no slots of their own and the global slots left by
    local accounts are fewer than the remote accounts (`PoolEviction.EvictionEmptiesLists`, `EvictionEmptiesAll`).
  - A rewind can leave a side header without its parent, and heavier than the head
    (`HeaderChains.RewindRooted`). Inserting a heaviest header then crashes exactly if its ancestry is not stored
    down to the genesis (`HeaderChains.HeaderChain.WriteHeader`, `HeaderChains.OrphanCrashes`).
  - A reorg loses lookup entries exactly for transactions that repeat below the fork
    (`Reorgs.BlockChain.Reorg`, `Reorgs.RepeatIsLost`).
  - Near 2^64 the gas limit wraps, and far below the minimum it jumps: a block moves it by at most a 1024th
    exactly if the parent's limit leaves room for that step, and it converges exactly from the starts described
    by `GasLimits.Tame` (`GasLimits.StepIsSmallIff`, `GasLimits.HighestLimitFalls`, `GasLimits.ConvergesIff`). It
    follows the use of the block exactly if half as much again as was used is still a word
    (`GasLimits.FollowsUseIff`, `GasLimits.FullBlockFalls`).
  - A section index can hold a section that reaches above a fork: exactly if a fork inside it, below its last
    header, was noticed while it was being processed (`ChainIndexers.ChainIndexer.Run`,
    `ChainIndexers.StaleSection`).
  - A miner's fill can overrun the block's gas limit, since it makes its gas pool anew: it keeps the limit exactly
    if the block had used nothing before, or if the limit does not cover a plain transfer
    (`BlockFilling.KeepsLimitIff`, `BlockFilling.RefillOverruns`).
  - A block hash query for number 2^64 - 1 answers with the genesis' parent hash
    (`BlockHashes.WalkAboveIsNothing`, `BlockHashes.HighestWordWraps`).
- These steps have an outcome for a crash of the source, and say exactly when it comes:
  `HeaderChains.HeaderChain.WriteHeader`, `PoolResets.Collect`, `BlockFilling.NewTxSet`,
  `Gas.Block.ApplyChainCall`, `SideChains.Settlement.GetSideChainForLaunch` and
  `Protocols.Peer.CheckAndUpdate`.

## Model

| member | source | states |
|---|---|---|
| `Heaps.RootIsMinOfAll` | metrics/sample.go:583-610 | the root of an ordered heap is no larger than any element |
| `Heaps.MinHeap.Up` | metrics/sample.go:583-592 | sifting up repairs the one broken position and only permutes |
| `Heaps.MinHeap.Down` | metrics/sample.go:594-610 | sifting down repairs the subtree and only permutes |
| `Heaps.MinHeap.Push` | metrics/sample.go:557-562 | the heap gains exactly the element and stays ordered |
| `Heaps.MinHeap.Pop` | metrics/sample.go:564-573 | a least element leaves, the rest stays and stays ordered |
| `Heaps.MinHeap.Remove` | core/tx_list.go:159-165 | removal at any position takes exactly that element and stays ordered |
| `Heaps.MinHeap.Init` | core/tx_list.go:113-118 | any arrangement becomes a heap of the same elements |
| `Heaps.MinHeap.ReplaceRoot` | core/types/transaction.go:423-426 | exactly the root is exchanged and the heap stays ordered |
| `Heaps.Sort` | core/tx_list.go:204-211 | the result is a sorted permutation |
| `TxSortedMaps.TxSortedMap.constructor` | core/tx_list.go:59-64 | starts as the empty map |
| `TxSortedMaps.TxSortedMap.Put` | core/tx_list.go:73-79 | refines map update; the index stays a duplicate-free heap of the stored nonces and the cache is dropped |
| `TxSortedMaps.TxSortedMap.Forward` | core/tx_list.go:84-98 | exactly the nonces below the threshold leave, returned in order; a cache stays the sorted contents |
| `TxSortedMaps.TxSortedMap.Filter` | core/tx_list.go:102-123 | exactly the matching transactions leave and are returned |
| `TxSortedMaps.TxSortedMap.Cap` | core/tx_list.go:127-148 | exactly the lowest nonces stay, as many as allowed; a cache stays the sorted contents |
| `TxSortedMaps.TxSortedMap.Remove` | core/tx_list.go:152-169 | removes the nonce and reports whether it was there |
| `TxSortedMaps.TxSortedMap.Ready` | core/tx_list.go:178-193 | returns the maximal consecutive run from the smallest nonce, if that is not above the start |
| `TxSortedMaps.TxSortedMap.Flatten` | core/tx_list.go:203-216 | returns the nonce-sorted contents and caches them |
| `TxLists.FilterIsComplete` | core/tx_list.go:290-313 | the cap shortcut gives the same result as filtering everything |
| `TxLists.FilterPartitions` | core/tx_list.go:290-313 | removed, invalid and remaining partition the list |
| `TxLists.FilterKeepsPrefix` | core/tx_list.go:290-313 | a contiguous strict list stays a contiguous prefix |
| `TxLists.PricesOnlyClimb` | core/tx_list.go:251-272 | over any offers no nonce is lost and replacements raise the price, by the bump percentage up to less than one unit |
| `TxLists.TxList.Add` | core/tx_list.go:251-272 | refines the value operation: replaced transaction and caps; taken exactly if its nonce is free or the price is higher, and by the bump percentage |
| `TxLists.TxList.Forward` | core/tx_list.go:277-279 | refines the value operation and returns what left |
| `TxLists.TxList.Filter` | core/tx_list.go:290-313 | refines the value operation, with the removed and the invalidated |
| `TxLists.TxList.Cap` | core/tx_list.go:318-320 | refines the value operation and returns what left |
| `TxLists.TxList.Remove` | core/tx_list.go:325-336 | refines the value operation, with the invalidated successors in strict mode |
| `TxLists.TxList.Ready` | core/tx_list.go:345-347 | refines the value operation and returns the run |
| `TxPricedLists.TxPricedList.Put` | core/tx_list.go:403-405 | one more entry in the price heap |
| `TxPricedLists.TxPricedList.Removed` | core/tx_list.go:410-424 | counts a stale entry, or rebuilds the heap from the pool past a quarter |
| `TxPricedLists.TxPricedList.Cap` | core/tx_list.go:428-455 | drops exactly the remote transactions below the threshold; the rest stays covered; the stale counter falls with the stale entries taken |
| `TxPricedLists.TxPricedList.Underpriced` | core/tx_list.go:459-484 | true exactly for a remote transaction no dearer than every pooled one; the stale counter falls with the stale entries taken |
| `TxPricedLists.TxPricedList.Discard` | core/tx_list.go:488-511 | drops cheapest remote transactions only, no more than asked for, all of them if fewer; the stale counter falls with the stale entries taken |
| `PoolInvariants.PooledSitsAtItsNonce` | core/tx_pool.go:951-974 | looking a pooled transaction up by nonce finds that transaction and no other |
| `PoolInvariants.PutInQueue` | core/tx_pool.go:742-763 | enqueueing a demoted transaction is never rejected and never replaces |
| `PoolInvariants.PutInPending` | core/tx_pool.go:780-801 | promoting a queued transaction is never rejected and never replaces |
| `PoolNonces.ReadyStartsAtVirtualNonce` | core/tx_pool.go:1011-1015 | a ready run starts exactly at the virtual nonce |
| `PoolNonces.RemovalKeepsInterval` | core/tx_pool.go:951-965 | removing a pending transaction leaves the interval below it, and the virtual nonce at its end |
| `PoolNonces.PromotionExtends` | core/tx_pool.go:780-810 | promoting at the virtual nonce extends the interval by one |
| `PoolNonces.IdleAfterRemoval` | core/tx_pool.go:951-965 | taking a transaction out of pending makes nothing queued executable |
| `PoolEviction.TotalAt` | core/tx_pool.go:1032-1035 | the number of pending transactions may be counted account by account in any order |
| `PoolEviction.LevelJoin` | core/tx_pool.go:1048-1078 | once levelled to the next offender's length, that offender joins the level |
| `PoolEviction.EvictedNonEmpty` | core/tx_pool.go:1031-1100 | with at least one slot per account eviction empties no list |
| `PoolEviction.EvictionEmptiesLists` | core/tx_pool.go:1031-1100 | eviction empties no list exactly if accounts have a slot, nothing is evicted, or the global slots suffice for local transactions and one per remote account; otherwise it empties every remote list |
| `PoolEviction.EvictionEmptiesAll` | core/tx_pool.go:1080-1098 | three accounts with one transaction each, one slot in all and none per account: all end empty |
| `PoolEviction.OffendersAreAccounts` | core/tx_pool.go:1048-1051 | there are never more offenders than remote accounts |
| `PoolOutcomes.CountAll` | core/tx_pool.go:503-513 | the number of known transactions is what pending and queue hold together |
| `PoolOutcomes.TracedSurvives` | core/tx_pool.go:870-893 | nothing goes missing in a batch but by age, price or a taken slot |
| `PoolOutcomes.EvictionKept` | core/tx_pool.go:1039-1044 | pending eviction takes nothing from local accounts |
| `PoolOutcomes.DrainKept` | core/tx_pool.go:1110-1114 | the queue pass takes nothing from local accounts |
| `PoolOutcomes.IdleAfterEviction` | core/tx_pool.go:1065-1072 | evicting the end of pending intervals makes nothing queued executable |
| `PoolOutcomes.ContiguousAgain` | core/tx_pool.go:427-436 | after a head that lowers no nonce, demotion and renumbering give gapless intervals again |
| `TxPools.TxPool.constructor` | core/tx_pool.go:225-245 | an empty pool satisfies all invariants |
| `TxPools.TxPool.EnqueueTx` | core/tx_pool.go:742-763 | the queue and the known set change by exactly the list's verdict |
| `TxPools.TxPool.PromoteTx` | core/tx_pool.go:780-813 | pending, known set, virtual nonce and heartbeat change by exactly the list's verdict |
| `TxPools.TxPool.RemoveTx` | core/tx_pool.go:937-975 | exactly that transaction leaves; successors are requeued; union, disjointness, gaplessness and idleness stay |
| `TxPools.TxPool.RemoveTxs` | core/tx_pool.go:926-933 | exactly those transactions leave and all invariants stay |
| `TxPools.TxPool.PromoteRun` | core/tx_pool.go:1010-1015 | the whole run reaches pending, none is discarded, and the interval grows with it |
| `TxPools.TxPool.PromoteAccount` | core/tx_pool.go:989-1030 | pending only grows, the queue only shrinks, nothing executable stays queued, and what is dropped has a reason |
| `TxPools.TxPool.EvictPending` | core/tx_pool.go:1031-1101 | ends within the global limit or with every remote account within its slots; spares locals and small accounts; takes highest nonces only; no account ends below its slots or above a penalised one; overshoots by less than one per remote account; exactly when it leaves empty lists |
| `TxPools.TxPool.LevelDownSpammers` | core/tx_pool.go:1036-1099 | the nested levelling loops terminate with that outcome |
| `TxPools.TxPool.Equalise` | core/tx_pool.go:1058-1077 | the running counter equals the true sum, and all offenders stay level |
| `TxPools.TxPool.ReduceOffenders` | core/tx_pool.go:1060-1075 | one round takes exactly the highest nonce of each offender |
| `TxPools.TxPool.EvictQueue` | core/tx_pool.go:1102-1140 | ends exactly at the global limit or with only locals queued; later heartbeats lose everything before earlier ones lose anything |
| `TxPools.TxPool.DropWholeQueue` | core/tx_pool.go:1124-1132 | removes one account's queue and nothing else |
| `TxPools.TxPool.DropQueueTail` | core/tx_pool.go:1133-1139 | removes exactly the k highest queued nonces of one account |
| `TxPools.TxPool.PromoteExecutables` | core/tx_pool.go:980-1141 | all limits hold afterwards, nothing executable stays queued, locals lose only stale transactions, and with room to spare nobody loses others |
| `TxPools.TxPool.DemoteAccount` | core/tx_pool.go:1149-1186 | exactly the payable prefix from the state nonce stays pending; only stale transactions are lost |
| `TxPools.TxPool.DemoteUnexecutables` | core/tx_pool.go:1147-1187 | every account keeps exactly its payable part, or loses its list if that does not start at the state nonce; only stale transactions are lost |
| `PoolPromotion.PayablePrefix` | core/tx_pool.go:1151-1171 | that part is what is not below the state nonce and has nothing too expensive or too large at or before it |
| `TxPools.TxPool.MakeRoom` | core/tx_pool.go:679-695 | a full pool refuses exactly remote transactions no dearer than all; otherwise remote ones go, cheapest first, at least one if there is any, and never more than leave one place free |
| `TxPools.TxPool.Overtake` | core/tx_pool.go:699-720 | at a pending nonce: accepted exactly if it outbids the transaction there, which alone goes |
| `TxPools.TxPool.Insert` | core/tx_pool.go:697-735 | accepted exactly if it outbids the pooled transaction at its nonce; only that one may go; which accounts become local |
| `TxPools.TxPool.TakeIn` | core/tx_pool.go:679-735 | how a valid new transaction fares: when it is refused, what it displaces, and that a full pool gives up no more than room for it besides its own slot |
| `PoolOutcomes.VerdictMeans` | core/tx_pool.go:564-597 | valid exactly if size, value, gas, signature, price floor, nonce, balance and form are all right; each refusal names a fault that is there |
| `PoolOutcomes.ScreenedMore` | core/tx_pool.go:585-588 | a local transaction below the floor makes its account local, or outbids one that was not below |
| `PoolOutcomes.BatchWelcomes` | core/tx_pool.go:870-893 | with room to spare a batch brings in every valid transaction that has its slot to itself, and keeps every known one that is not stale |
| `TxPools.TxPool.Add` | core/tx_pool.go:665-737 | a known transaction is refused; an invalid one is refused for a fault it has; a valid one fares as above; a refusal but for a lost price contest changes nothing |
| `TxPools.TxPool.AddTxs` | core/tx_pool.go:870-893 | all invariants stay; every outcome has its reason; if anything new came in the pool limits hold; with room to spare every valid transaction with its slot to itself is in, and whatever was known is still there, stale, or overtaken; nothing else comes in; a batch the state has executed changes nothing |
| `TxPools.TxPool.AddEach` | core/tx_pool.go:874-882 | the same before promotion, and which accounts got something new; the pool gets no smaller than it was or than one below its limit |
| `TxPools.TxPool.SetGasPrice` | core/tx_pool.go:473-482 | exactly the remote transactions below the price go; nothing remote is then below the floor |
| `TxPools.TxPool.Expire` | core/tx_pool.go:320-335 | exactly the queues of remote accounts silent for too long or never heard of go: those without pending transactions, or last promoted longer ago than the lifetime |
| `TxPools.TxPool.Reset` | core/tx_pool.go:409-439 | union and limits after any new head; with room to spare every reinjected transaction that is valid and has its slot to itself is known, and no known one is lost but stale or overtaken; nothing else comes in; gapless and idle after a head that lowers no nonce |
| `TxPools.TxPool.Rebuild` | core/tx_pool.go:426-439 | demotion, renumbering and promotion lose only stale transactions if there is room, and restore the intervals |
| `PoolResets.Collect` | core/tx_pool.go:362-408 | exactly the transactions of blocks only the old head has, and of no block only the new one has, are thrown back; nothing across more than 64 heights; when the walk fails or crashes |
| `PoolResets.ReinjectExecuted` | core/tx_pool.go:374-406 | whatever is thrown back lay in the old head's chain |
| `PoolResets.ResetTo` | core/tx_pool.go:361-440 | a failed walk or a missing state changes nothing; otherwise only lost transactions come in and, with room, every lost one that is valid on the new state and has its slot to itself does; gapless and idle if no nonce goes back and the new state has used up those of the old head's chain |
| `PoolResets.Heed` | core/tx_pool.go:290-302 | one chain head: crashes exactly if a block is missing on a way it follows, and answers with what was lost |
| `PoolResets.Loop` | core/tx_pool.go:290-302 | the head kept is the last one announced, even if following it failed; exactly when it crashes; what every event does; gapless and idle over every run in which no head lowers a nonce |
| `PoolResets.LoweredNonceGap` | core/tx_pool.go:1149-1186 | a head that lowers a nonce and throws back only some transactions leaves a gap in the pending nonces |
| `PoolResets.GaplessAgainIff` | core/tx_pool.go:426-439 | after a new head pending nonces are intervals again exactly if what demotion leaves of each list is unbroken |
| `TxPools.TxPool.Take` | core/tx_pool.go:275-348 | what each pool operation does to the known set, lists, heartbeats and settings |
| `TxPools.TxPool.Run` | core/tx_pool.go:275-348 | over every run: the invariants; nothing remote below the price floor; accounts with pending transactions have a heartbeat, of their last promotion |
| `TxPools.TxPool.RunThenExpire` | core/tx_pool.go:320-335 | after any run, no queue goes of an account with pending transactions that was promoted within the lifetime, and every remote one without pending transactions goes |
| `PoolHeartbeats.PacedOn` | core/tx_pool.go:780-813 | over any promotions and removals a heartbeat is that of the last promotion, or went with the pending list |
| `Feeds.Feed.constructor` | event/feed.go:61-66 | no subscribers, only the interrupt case |
| `Feeds.Feed.Subscribe` | event/feed.go:73-93 | the channel joins the inbox |
| `Feeds.Feed.Find` | event/feed.go:213-220 | the first case holding the channel, or -1 exactly if there is none |
| `Feeds.Feed.Delete` | event/feed.go:223-225 | in place, everything behind the gap moves down one |
| `Feeds.Feed.Deactivate` | event/feed.go:228-232 | in place, the case is swapped behind the shrunken prefix |
| `Feeds.Feed.Unsubscribe` | event/feed.go:104-118 | leaves the inbox at once, or waits |
| `Feeds.Feed.RemoveIdle` | event/feed.go:120-124 | a waiting channel is always found and exactly one subscription of it goes |
| `Feeds.Feed.BeginSend` | event/feed.go:133-154 | everyone subscribed so far is to be served; the inbox joins the cases |
| `Feeds.Feed.Deliver` | event/feed.go:178-181 | one case leaves the unserved prefix and is counted |
| `Feeds.Feed.FastPath` | event/feed.go:156-165 | every unserved case is tried exactly once although served ones are swapped under the index |
| `Feeds.Feed.RemoveDuringSend` | event/feed.go:170-177 | the channel is found; the prefix shrinks exactly if it was unserved |
| `Feeds.Feed.EndSend` | event/feed.go:166-190 | served plus removed-early equals subscribed-at-start, and the count is the number served |
| `Feeds.Feed.Take` | event/feed.go:73-190 | what each step of a subscriber, a removal or the sender does |
| `Feeds.Feed.Run` | event/feed.go:73-190 | what every step does, and that whenever a send is over its subscribers were served once or removed before, in any interleaving |
| `Feeds.WaitingIsFound` | event/feed.go:117-124 | a removal past the inbox finds its channel behind case 0 |
| `ChainTree.AtHeightVia` | core/headerchain.go:172-184 | an ancestor's ancestors are one's own |
| `HeaderChains.HeaderChain.constructor` | core/headerchain.go:447-458 | a genesis alone satisfies the invariants |
| `HeaderChains.HeaderChain.DropAbove` | core/headerchain.go:161-170 | exactly the entries above the height go |
| `HeaderChains.HeaderChain.Overwrite` | core/headerchain.go:172-184 | the walk runs out of headers exactly if an ancestor is missing; otherwise the index is then the new parent's ancestry |
| `HeaderChains.HeaderChain.WriteHeader` | core/headerchain.go:137-201 | the index is defined exactly up to the head and is its ancestry; difficulties are those of all headers ever stored; when the parent is unknown, the head changes, or the source crashes; a heaviest head stays heaviest |
| `HeaderChains.HeaderChain.InsertHeaderChain` | core/headerchain.go:269-295 | headers are stored up to the first without a known parent; in a linked run that is the first or none; without orphans it never crashes |
| `HeaderChains.HeaderChain.SetHead` | core/headerchain.go:418-453 | the index is the old one cut at the height, exactly the canonical headers above it are gone, and the invariants stay |
| `HeaderChains.HeaderChain.Take` | core/headerchain.go:137-453 | what an insertion or a rewind does to the stored headers, the index and the head |
| `HeaderChains.HeaderChain.Run` | core/headerchain.go:137-453 | over every mix of insertions and rewinds the index is the head's ancestry unless it crashes; without rewinds it does not, and the head is heaviest |
| `HeaderChains.OrphanCrashes` | core/headerchain.go:172-184 | a rewind leaves a side header without its parent, and inserting its child crashes |
| `HeaderChains.CompleteKept` | core/headerchain.go:151-155 | storing a header does not complete its parent's ancestry |
| `HeaderChains.RootIsGenesis` | core/headerchain.go:172-184 | every ancestry ends in the genesis |
| `HeaderChains.TotalDifficulty` | core/headerchain.go:143-149 | the stored value is the sum of difficulties along the ancestry |
| `HeaderChains.RewindRooted` | core/headerchain.go:418-453 | after a rewind parents are all stored exactly if no side header hangs off a removed one |
| `Reorgs.TxDifference` | core/types/transaction.go:333-348 | the order-preserving difference |
| `Reorgs.BlockChain.FindSplit` | core/blockchain.go:1281-1317 | terminates; finds the highest common ancestor and exactly the two branches, or fails exactly if there is none |
| `Reorgs.BlockChain.Adopt` | core/blockchain.go:1331-1338 | the index gains the branch and nothing else; transactions point at the youngest block of it |
| `Reorgs.BlockChain.Reorg` | core/blockchain.go:1253-1358 | a canonical old ancestry gives a canonical new one; what is dropped with the old branch loses its lookup entry, and the index follows exactly if none of that is in a block both chains share |
| `Reorgs.RepeatIsLost` | core/blockchain.go:1330-1345 | after the reorg a transaction that is still in the chain has no lookup entry |
| `Reorgs.OwnerSplit` | core/blockchain.go:1331-1344 | who owns a transaction is decided in the branch or else below it |
| `Ledgers.SumCredited` | core/state_transition.go:169-186 | crediting an account adds to the sum of all |
| `Gas.IntrinsicGas` | core/state_transition.go:79-109 | the exact cost, and an error exactly if it does not fit 64 bits |
| `Gas.GasPool.AddGas` | core/gaspool.go:29-35 | adds; its precondition, proved at every call, is that the source does not panic |
| `Gas.GasPool.SubGas` | core/gaspool.go:39-45 | subtracts exactly if there is enough |
| `Gas.StateTransition.BuyGas` | core/state_transition.go:169-186 | charges the pool and the sender for the whole allowance exactly if both can pay |
| `Gas.StateTransition.PreCheck` | core/state_transition.go:188-202 | charges only if the nonce fits; failure changes nothing |
| `Gas.StateTransition.RefundGas` | core/state_transition.go:255-274 | gives back what is left and at most half of what was used |
| `Gas.StateTransition.TransitionDbEx` | core/ligo_state_transition.go:14-61 | when it succeeds; the state it leaves; pool and accounts lose exactly the gas used and its price |
| `Gas.StartsFrom` | core/ligo_state_transition.go:38-45 | the machine starts with the sender charged the whole allowance and, for a call, its nonce raised; nobody else is touched |
| `Gas.EndsWith` | core/state_transition.go:255-274 | afterwards only the sender gets anything, the price of the unused gas, and no nonce changes |
| `Gas.CallEndsWith` | core/ligo_state_processor.go:103-163 | the same around a callback, with the sender's nonce one above what it left |
| `Gas.UsesNonce` | core/ligo_state_transition.go:38-45 | a transaction that goes through has its sender's nonce and uses it up |
| `Gas.StaysSolvent` | core/state_transition.go:169-186 | if the machine or the callback makes no covered balance negative, neither does the transaction |
| `Gas.InTurnNext` | core/state_processor.go:60-94 | over all that go through: no balance becomes negative, checked transactions of a sender rise in nonce, and each nonce is the first one plus those before |
| `Gas.Block.ApplyTransactionEx` | core/ligo_state_processor.go:17-67 | used plus left is unchanged by a success, money is conserved, receipts add up; a failure records nothing |
| `Gas.Block.ApplyChainCall` | core/ligo_state_processor.go:67-167 | the same for chain contracts, at their fixed gas; exactly when they are applied, cost gas, or crash on short call data |
| `Gas.Block.Process` | core/state_processor.go:60-94 | every transaction takes effect in its turn or the first that cannot fails the block; used plus left equals the limit and balances plus fees are unchanged; no nonce goes through twice and no balance becomes negative |
| `Gas.Block.Attempt` | miner/worker.go:695-708 | a failing transaction is undone, and costs its whole gas allowance exactly if it got as far as buying it, else nothing; exactly which failures put off the account |
| `BlockFilling.NewTxSet` | core/types/transaction.go:393-410 | every account is offered at its next price; crashes exactly on an account without transactions |
| `BlockFilling.TxSet.Peek` | core/types/transaction.go:413-418 | no account's next transaction pays more |
| `BlockFilling.TxSet.Shift` | core/types/transaction.go:421-429 | exactly the next transaction of that account leaves |
| `BlockFilling.TxSet.Pop` | core/types/transaction.go:434-436 | exactly that account leaves |
| `BlockFilling.Fill` | miner/worker.go:603-671 | from a full gas pool, in every turn the best paid next transaction comes up and is included exactly if it goes through; it puts off its account exactly if ignored, ahead of its nonce or too large; ends when gas or offers run out, or at a crash; gas used grows by what the included ones took, and money is conserved |
| `BlockFilling.KeepsLimitIff` | miner/worker.go:603-671 | whatever is offered, the block's gas limit is kept exactly if nothing was used before or nothing can be filled |
| `BlockFilling.RefillOverruns` | miner/worker.go:307-316 | two single offers leave a block with twice its limit used |
| `BlockFilling.GasFromPool` | miner/worker.go:609-671 | what goes through takes its gas out of the pool, and nothing comes back |
| `BlockFilling.AccountOrder` | miner/worker.go:609-671 | each account's transactions come up in order and without gaps, all of them unless one puts off the rest or gas runs out |
| `BlockFilling.TakenInTurn` | miner/worker.go:609-671 | no nonce goes through twice in a fill, whatever is offered |
| `Gas.SetReceiptsData` | core/blockchain.go:675-701 | in place, each receipt's gas from the cumulative values on 64-bit words |
| `Gas.ReceiptsRecovered` | core/blockchain.go:697-701 | on a processed block's receipts that is the gas recorded |
| `Dialing.DialState.constructor` | p2p/dial.go:90-106 | an idle scheduler satisfies the invariants |
| `Dialing.DialState.CheckDial` | p2p/dial.go:210-225 | a node passes exactly if it is not being dialled, connected, oneself or barred, and its last dial ended over 30 seconds ago; a refusal has its reason |
| `Dialing.HistoryIsExact` | p2p/dial.go:344-356 | once old entries are gone, the history holds exactly the nodes dialled in the last 30 seconds |
| `Dialing.DialState.Expire` | p2p/dial.go:352-356 | every dial still remembered is current, every forgotten one is over |
| `Dialing.DialState.AddDial` | p2p/dial.go:126-134 | a dial starts exactly if the check passes, within the budget |
| `Dialing.DialState.DialStatics` | p2p/dial.go:150-160 | no wanted node is left aside; only nodes that never may be dialled are dropped |
| `Dialing.DialState.DialDynamic` | p2p/dial.go:182-187 | candidates are taken in order until the budget is used up |
| `Dialing.DialState.DialBootnode` | p2p/dial.go:162-170 | without peers and after the fallback time the first boot node is tried and goes to the end, otherwise nothing |
| `Dialing.DialState.DialRandom` | p2p/dial.go:172-180 | exactly the random nodes for half the need are tried |
| `Dialing.DialState.DialLookups` | p2p/dial.go:182-188 | buffered lookup results are tried in order and used up |
| `Dialing.EarliestIsNext` | p2p/dial.go:195-198 | the wait is until the earliest end of a dial's history time |
| `Dialing.DialState.NewTasks` | p2p/dial.go:120-200 | dynamic peers and dials stay within the budget; who is dialled, and that nobody else is: static nodes, after the fallback time the first boot node, random nodes for half the need, lookup results; a lookup exactly if candidates are short; waits only with nothing else to do, for the next dial to leave the history |
| `Dialing.DialState.DialDone` | p2p/dial.go:227-231 | the dial is over and remembered for 30 seconds |
| `Dialing.DialState.PeerUp` | p2p/server.go:551-570 | a dynamic peer comes from a dynamic dial, so the budget holds |
| `Dialing.DialState.RemoveStatic` | p2p/dial.go:113-118 | the node is no longer wanted and its last dial forgotten |
| `Dialing.DialState.Take` | p2p/server.go:511-585 | what each event does to the scheduler |
| `Dialing.DialState.Run` | p2p/server.go:511-585 | budget and history over every run; two dials of a node never overlap, and the second starts more than 30 seconds after the first ended unless the node was removed between |
| `Protocols.MatchProtocols` | p2p/peer.go:392-414 | each shared name has its highest shared version, and the ranges tile the codes from 16 on |
| `Protocols.SameTable` | p2p/peer.go:392-414 | two sides matching each other's announcements compute the same table exactly if they agree on the length of each highest shared version |
| `Protocols.TilesAreDisjoint` | p2p/peer.go:392-414 | ranges do not meet and stay off the base codes |
| `Protocols.Transmit` | p2p/peer.go:488-520 | between such sides a code written by one is read unchanged by the same protocol on the other |
| `Protocols.Peer.GetProto` | p2p/peer.go:488-495 | finds the one protocol a code belongs to, in any order of search |
| `Protocols.Peer.ReadCode` | p2p/peer.go:523-527 | codes are shifted back for their protocol |
| `Protocols.Peer.LargestOffset` | p2p/peer.go:426-435 | the end of the highest range |
| `Protocols.Peer.CheckAndUpdate` | p2p/peer.go:347-378 | a side-chain protocol starts where the highest range ends and keeps ranges disjoint; when it is added, and when the source crashes |
| `ChainIndexers.ChainIndexer.constructor` | core/chain_indexer.go:56-73 | no sections |
| `ChainIndexers.ChainIndexer.Reorg` | core/chain_indexer.go:173-191 | exactly the sections that end below the fork's height stay; one that ends with it goes although nothing in it changed |
| `ChainIndexers.ChainIndexer.NewHead` | core/chain_indexer.go:195-206 | exactly the sections with enough confirmations become known |
| `ChainIndexers.ChainIndexer.Start` | core/chain_indexer.go:222-241 | the next section is taken up with the head it has to continue |
| `ChainIndexers.ChainIndexer.ProcessSection` | core/chain_indexer.go:281-308 | succeeds exactly if all headers are there and linked |
| `ChainIndexers.ChainIndexer.Refuse` | core/chain_indexer.go:284-287 | a refused section is marked, and keeps the invariants |
| `ChainIndexers.ChainIndexer.DropOne` | core/chain_indexer.go:341-344 | then sections are dropped one by one, without the lock |
| `ChainIndexers.ChainIndexer.Finish` | core/chain_indexer.go:242-266 | commits exactly if the section was accepted and linked and its predecessor is unchanged |
| `ChainIndexers.ChainIndexer.DropSections` | core/chain_indexer.go:335-346 | exactly the heads from there on go |
| `ChainIndexers.ChainIndexer.Take` | core/chain_indexer.go:169-266 | what each notice and each step around a section does |
| `ChainIndexers.ChainIndexer.Run` | core/chain_indexer.go:169-266 | heads exist exactly below the stored count, each linked to the one before, over every interleaving; a stored section reaches above a fork noticed since it was taken up exactly if that fork is inside it and was noticed before it was stored |
| `ChainIndexers.StaleSection` | core/chain_indexer.go:242-266 | a section of two headers is stored although the chains part after its first, and is not even known |
| `ChainIndexers.OneChain` | core/chain_indexer.go:281-308 | the committed sections are one unbroken chain from height 0 |
| `SideChains.TotalDeposit` | core/chains_info.go:170-176 | the sum of the deposits |
| `SideChains.Settlement.GetSideChainForLaunch` | core/chains_info.go:369-431 | the in-place compaction equals the order-preserving filter; exactly which chains are launched and given up, by start, end, validators and deposits; what every account, chain balance and deposit gains or loses; crashes exactly at the first started entry without data |
| `SideChains.Settlement.SettleOne` | core/chains_info.go:386-421 | one entry's fate by start, end, validators and deposits, and who gains and loses how much; a crash exactly if it has started and its data is missing |
| `SideChains.SettlementConserves` | core/chains_info.go:385-422 | balances, deposits and chain balances together never change |
| `SideChains.SettledMoves` | core/chains_info.go:389-415 | a launch moves each deposit to the owner's chain balance; giving up returns each deposit and, out of the owner's chain balance, the official deposit |
| `SideChains.PassMoves` | core/chains_info.go:385-422 | over a whole pass these add up |
| `SideChains.SelectedInOrder` | core/chains_info.go:383-422 | the kept, launched and given up entries are exactly those with that fate, in index order |
| `SideChains.FatesPartition` | core/chains_info.go:385-422 | kept, launched and given up are all entries |
| `GasLimits.StepIsSmall` | core/block_validator.go:76-99 | one block moves the limit by at most a 1024th |
| `GasLimits.StepIsSmallIff` | core/block_validator.go:76-99 | for all usages and targets exactly if that step up is at least the minimum and does not pass 2^64; for every parent limit |
| `GasLimits.FollowsUseIff` | core/block_validator.go:76-98 | without floor and ceiling the limit rises exactly after blocks two thirds full, up to rounding, and falls after emptier ones; this holds exactly if half as much again as was used is still a word |
| `GasLimits.FullBlockFalls` | core/block_validator.go:76-98 | a full block at three quarters of a word makes the limit fall |
| `GasLimits.HighestLimitFalls` | core/block_validator.go:76-99 | the highest limit falls by more than that in one block |
| `GasLimits.TowardsTarget` | core/block_validator.go:76-99 | with floor and ceiling equal, the limit moves to the target or reaches it |
| `GasLimits.Converges` | core/block_validator.go:76-99 | for any usage the target is reached in finitely many blocks, never overshot, and kept |
| `GasLimits.ConvergesIff` | core/block_validator.go:76-99 | every usage brings each block closer exactly from these starts and targets |
| `GasLimits.Monotone` | core/block_validator.go:76-99 | each block is at least as close as the one before |
| `BlockHashes.HashFn.Query` | core/evm.go:67-92 | the remembered answer equals a walk of its own |
| `BlockHashes.HashFn.QueryAll` | core/evm.go:62-93 | the same for any sequence of queries |
| `BlockHashes.WalkFindsAncestor` | core/evm.go:79-90 | below the reference the answer is its ancestor at that height |
| `BlockHashes.WalkAboveIsNothing` | core/evm.go:72-91 | at and above the reference's height there is no answer, but for 2^64 - 1, which wraps to the reference's number |
| `BlockHashes.HighestWordWraps` | core/evm.go:72-91 | on a full chain that is the genesis' parent hash |

## Left out

- Nonces, gas prices and code offsets are unbounded; wrap-around of a nonce at 2^64 does not appear.
- Lists inside the pool are values; the classes `TxList` and `TxSortedMap` are proved to refine those values.
- `TxPools.TxPool.AddTxs`: also stands for adding a single transaction, which differs only in how the promoted account is passed.
- `PoolOutcomes.VerdictOf`: the address, intrinsic gas and contract checks after the balance check are one parameter, and so is the crash on call data shorter than four bytes.
- `TxPools.TxPool.Reset`: gaplessness is not claimed across heads that lower an account's nonce, where a partly accepted reinjection can leave a gap; `PoolResets.LoweredNonceGap` is one, and `PoolResets.GaplessAgainIff` says when on the lists after reinjection.
- `PoolResets.ResetTo`: the special case of a missing new head, which only tests of the source use.
- Whether the pool's count of stale price heap entries is right, journals, the performance test switch, statistics and events of the pool.
- `Feeds.Feed.BeginSend`: always copies the case list, where the source may append in place.
- Type checks, panics and reflection of the feed.
- `HeaderChains.HeaderChain.WriteHeader`: looks parents up by hash and number as the database does; a difficulty found in the cache would let a misnumbered header pass, which header verification refuses before (consensus/tendermint/engine.go:236-238).
- The header, difficulty and number caches otherwise, and header verification itself.
- What a header chain does with an index half rewritten by a crash.
- `Reorgs.BlockChain.Reorg`: says nothing about canonical entries above the new head's height.
- Head header and fast-block markers, log events, sidechain insertion and receipt chains.
- `BlockFilling.Fill`: a gas counter that would pass 2^64 after many fills without mining. Which invalid cross-chain transactions are then removed from the pool does not appear.
- EVM execution, the state database beyond balances and nonces, and pending operations.
- `Dialing.DialState.Run`: at most sixteen tasks run at once in the source; queueing them does not appear.
- Address resolution and its back-off, and dialling itself.
- `Protocols.MatchProtocols`: names are numbers in the order of the strings, and the library sort is an insertion sort.
- Agreement of the two ends after side-chain protocols were added at different times.
- `ChainIndexers.ChainIndexer.DropOne`: lowering the count and removing the head are one step, though the source holds no lock between them.
- Child indexers, throttling and known section heads from outside.
- The pending side-chain index across several operations in one block.
- `GasLimits.ConvergesIff`: starts and targets below the minimum of 5000, where the step can be nothing at all.
- Consensus, tries, RLP, key storage, RPC, console and node start-up.
