# Verified core of a blockchain node

This project models the parts of the go-wanchain node whose correctness is hard
to see by reading one function at a time, and proves what they keep, compute or
undo. `dafny verify dfyconfig.toml` checks everything.

- **Binary Merkle hasher** (`Bmt*.dfy`). Goroutines race up a reused tree. They
  are a state machine, and a run is an arbitrary interleaving of its steps. Every
  run is finite, never gets stuck, ends with the value of the recursive reference
  hasher and gives the tree back clean, on any tree that was used fewer than 2^30
  times. After 2^30 chunks the int32 toggle can have wrapped around, and the claim
  is false for every base hash that tells two short inputs apart; both directions
  are proved over trees that runs reach.
- **Canonical chain** (`HeaderStore`, `HeaderChains`, `Chains`, `BlockChains`).
  Fork choice, reorganisation, the number index and the transaction lookup
  index, and K-deep finality over whole runs under proof of stake.
- **Transaction pool** (`BinaryHeaps`, `SortedMaps`, `TxLists`, `PricedLists`,
  `AccountLists`, `FairCuts`, `TxPools`, `PoolLimits`, `PoolCycles`,
  `SettledPools`, `PoolResets`, `PoolGaps`). The nonce heap with its lazy cache,
  cost caps, the price heap with stale entries, the pool invariant, the fairness
  cut as water-filling, what runs of operations keep between two heads of the
  chain, and what a new head leaves of the pool.
- **Event feed and request distributor** (`Feeds`, `Distributors`,
  `DistributorLoops`). Exactly-once delivery under swaps and deletes in place,
  no lost wake-up, and the one way to close a channel twice.
- **Gas and value** (`GasPools`, `Worlds`, `StateTransitions`,
  `StateProcessors`). Value conservation, the block gas identity, receipts, and
  stamps that pay once.
- **Chain indexer** (`ChainIndexers`). A tree of indexers whose sections are
  processed with the lock released.
- **Ring signatures, one-time keys, base58** (`Residues`, `Groups`,
  `RingSignatures`, `Base58`). Completeness over any group of the given order,
  and encodings that are inverse to each other.

Conventions. Hashes are arbitrary functions, free of collisions where the code
relies on it. Databases are maps. Clocks, randomness, the network, the EVM,
signature recovery and consensus checks are parameters. Integers are unbounded
except where the width matters, which is then written out.

Where code and documentation disagree, the code is followed: the comment on the
queue limit of the pool speaks of dropping the oldest transactions, but the code
takes accounts from the end of a list sorted by rising heartbeat, that is the
most recently active first (`core/tx_pool.go:1080-1115`); `Sum` of the parallel
hasher does not append its argument (`bmt/bmt.go:290-308`).

## Model

| member | source | states |
|---|---|---|
| `BmtReference.RefHasher.constructor` | bmt/bmt_r.go:39-55 | the span found by doubling is a subtree capacity of at least half the chunk capacity |
| `BmtReference.SpanSegments` | bmt/bmt_r.go:43-48 | the span is a power of two of segments, at least half the count, and below the count unless it is two |
| `BmtReference.Halve` | bmt/bmt_r.go:71-73 | halving the span finds the largest power-of-two cut below the length |
| `BmtReference.RefHasher.Hash` | bmt/bmt_r.go:59-65 | the reference hash is the recursive root of the chunk, cut at the capacity |
| `BmtReference.RefHasher.HashSpan` | bmt/bmt_r.go:67-85 | from any span at least half the chunk, the recursion computes the root, which does not depend on the span |
| `BmtProtocol.ToggleAlternates` | bmt/bmt.go:509-511 | an even int32 counter makes exactly the first of two callers wait if and only if it is not negative |
| `BmtHasher.NewTree` | bmt/bmt.go:253-276 | a new tree has every node of its depth, empty, no flag set, only the top as root, all toggles zero |
| `BmtTheorem.Depth` | bmt/bmt.go:521-526 | the depth is the bit length of the last leaf's index |
| `BmtHasher.Hasher.Write` | bmt/bmt.go:334-373 | keeps exactly the first bytes of all data up to a limit, cut into full double segments and one open one; crashes exactly if more than the capacity was kept before |
| `BmtHasher.Hasher.KeepsCapacity` | bmt/bmt.go:341-368 | what is kept is what the reference keeps if and only if the data fits, the count is even, or the write starts at a double segment or in the last one |
| `BmtHasher.OverfullHasher` | bmt/bmt.go:341-368 | a hasher for three segments, written in two parts, keeps a fourth, and the next write crashes |
| `BmtHasher.Hasher.CutAsReference` | bmt/bmt.go:334-373 | launched and open segments are exactly the double segments of the data kept, numbered, with the tree's depth |
| `BmtInvariant.InitInv` | bmt/bmt.go:253-276 | a clean tree with nothing started satisfies the invariant of the hashing machine |
| `BmtSteps.ToggleInv` | bmt/bmt.go:463-494 | at a balanced node the first arrival returns and the second goes on with both values in place |
| `BmtSteps.CombineInv` | bmt/bmt.go:463-494 | what a goroutine computes at a node is the value the reference assigns to that node |
| `BmtMain.FinaliseInv` | bmt/bmt.go:530-547 | marking the final path, one node per step, while goroutines run, keeps the invariant |
| `BmtMain.MainInv` | bmt/bmt.go:293-308 | every step of the hashing thread before the result keeps the invariant |
| `BmtMain.ExecInv` | bmt/bmt.go:442-494 | every step of every goroutine keeps the invariant |
| `BmtTheorem.SenderIsLast` | bmt/bmt.go:482-487 | when a goroutine sends the result, all others have returned |
| `BmtTheorem.ReleaseAfter` | bmt/bmt.go:425-440 | releasing the final path, node by node, leaves a clean tree |
| `BmtTheorem.NeverStuck` | bmt/bmt.go:293-308 | until the tree is released some step is possible |
| `BmtTheorem.StepDrops` | bmt/bmt.go:463-494 | every step lowers a rank, so every run is finite |
| `BmtTheorem.HasherRefinesReference` | bmt/bmt.go:293-308 | for every count, data, interleaving: bounded runs that stop only with the reference hash and a clean tree |
| `BmtWrapAround.ReachedClean` | bmt/bmt.go:425-440 | however many chunks of any kind a tree has hashed, up to 2^30, it is given back clean |
| `BmtWrapAround.CountsTwo` | bmt/bmt.go:463-511 | a complete run on any chunk of three segments takes the top counter two further, wrapping as int32 does |
| `BmtWrapAround.WornTreeGivesWrongHash` | bmt/bmt.go:509-511 | 2^30 chunks from a new tree lead to one on which, for every base hash and segment size, three segments can be answered with a hash that ignores the last |
| `BmtWrapAround.WearLimit` | bmt/bmt.go:293-308 | for every base hash, results on all trees used at most so often are right below 2^30 uses; and if and only if so, unless the base hash collides for all three-segment chunks |
| `HeaderStore.FindCommonAncestor` | core/database_util.go:609-633 | in any store, the shared ancestor with the highest number, and nil exactly if the two walks share none |
| `HeaderStore.PathsPart` | core/database_util.go:609-633 | in a store with all parents there is one: the two ancestor paths agree up to it and nowhere above |
| `HeaderChains.NewHeaderChain` | core/headerchain.go:72-109 | on any database: fails exactly without a genesis header, starts at the stored head or else at genesis, and is valid if and only if the database is consistent |
| `HeaderChains.GenesisConsistent` | core/genesis.go:310-341 | the database that a committed genesis block leaves is consistent |
| `HeaderChains.HeaderChain.WriteHeader` | core/headerchain.go:137-205 | index equals the head's ancestor path with nothing above; exact status; total difficulty of the head never falls, and under proof of stake its number rises |
| `HeaderChains.HeaderChain.Record` | core/headerchain.go:149-159 | stored total difficulties stay the sums along ancestor paths, for both candidates |
| `HeaderChains.HeaderChain.DeleteAbove` | core/headerchain.go:166-173 | no index entry is left above the new head |
| `HeaderChains.HeaderChain.Reroute` | core/headerchain.go:174-190 | overwriting stale entries until one agrees leaves the index of the new head's path |
| `HeaderChains.AddTotal` | core/headerchain.go:349-355 | recording a child's total difficulty keeps every stored one the sum of its path |
| `BlockChains.TxDifference` | core/types/transaction.go:344-359 | the first list with all members of the second struck out, order and repetitions kept |
| `BlockChains.BlockChain.WriteTxLookupEntries` | core/database_util.go:465-482 | each transaction of the block gets the position of its last occurrence, no other entry changes |
| `BlockChains.LowerNew` | core/blockchain.go:1554-1565 | the walk down the new branch stays on its ancestor path or proves there is none |
| `BlockChains.Meet` | core/blockchain.go:1567-1585 | walking both branches down in step lists exactly the blocks above their fork |
| `BlockChains.FindFork` | core/blockchain.go:1545-1585 | fails exactly if the new block has no ancestor path, and otherwise finds the last common block |
| `BlockChains.BlockChain.RewriteIndexes` | core/blockchain.go:1625-1636 | writing the new branch highest first turns the index into that of the new path |
| `BlockChains.BlockChain.DeleteLookups` | core/blockchain.go:1638-1644 | exactly the given entries are gone |
| `BlockChains.LookupSwitched` | core/blockchain.go:1625-1644 | writing the new branch and deleting the difference leaves exactly the lookups of the new path |
| `BlockChains.BlockChain.Reorg` | core/blockchain.go:1522-1644 | exact error conditions; on success both indexes are those of the new ancestor path, otherwise nothing changed |
| `BlockChains.DeepIs` | core/blockchain.go:1616-1623 | whether a block lies too deep does not depend on how its path is found |
| `BlockChains.BlockChain.ExtendHead` | core/blockchain.go:1104-1139 | a child of the head extends the path and both indexes by itself |
| `BlockChains.BlockChain.ReorgHead` | core/blockchain.go:1104-1139 | a switch of branches succeeds exactly if the path exists, nothing vetoes it and at most K blocks are added |
| `BlockChains.BlockChain.WriteBlockAndState` | core/blockchain.go:1026-1139 | both indexes stay those of the current block's ancestor path; exact status; the path only grows as the fork rule allows |
| `Chains.FinalStays` | core/blockchain.go:1616-1623 | a block with K - 1 blocks above it survives any one canonical write |
| `Chains.Finality` | core/blockchain.go:1102-1139 | over any run of writes with the bound active, a final block is never replaced |
| `BlockChains.WriteRun` | core/blockchain.go:1026-1139 | over any run of writes both indexes stay exact, the path moves only as the fork rule allows, and with the bound active the number index keeps every final entry |
| `Feeds.Find` | event/feed.go:208-215 | the first case of the channel, or -1 exactly if there is none |
| `Feeds.DeleteParts` | event/feed.go:218-220 | deleting takes exactly one occurrence of one case out, from the part it was in |
| `Feeds.DeactivateParts` | event/feed.go:223-227 | the swap moves one case from those still owed the value to those served, and never case 0 |
| `Feeds.RemovalFinds` | event/feed.go:104-125 | whenever a remover is served its case is there, so the index -1 is never deleted |
| `Feeds.SelectRemoveInv` | event/feed.go:166-172 | a removal served during Send keeps the accounts of what is owed, served and removed |
| `Feeds.StepInv` | event/feed.go:73-185 | every step of Subscribe, Unsubscribe and Send keeps the invariant |
| `Feeds.RunInv` | event/feed.go:73-185 | the invariant holds throughout every interleaving |
| `Feeds.SendIsExactlyOnce` | event/feed.go:129-185 | when Send ends, each merged channel got the value once or was removed before; nsent counts the deliveries; the cases are those merged less those removed, case 0 first |
| `BinaryHeaps.Up` | core/tx_list.go:75-81 | sifting up restores the heap and permutes it |
| `BinaryHeaps.Down` | core/tx_list.go:114-120 | sifting down restores the order below and permutes |
| `BinaryHeaps.RootIsLeast` | core/tx_list.go:90-92 | the first element of a heap is a least one |
| `BinaryHeaps.Remove` | core/tx_list.go:160-166 | removing any position keeps the heap and takes one element out |
| `BinaryHeaps.Heapify` | core/tx_list.go:114-120 | any order of elements becomes a heap of the same elements |
| `SortedMaps.SortedMap.Put` | core/tx_list.go:75-81 | the map is updated, and the heap index still holds each nonce once |
| `SortedMaps.SortedMap.Forward` | core/tx_list.go:86-100 | exactly what lies below the threshold leaves, by rising nonce, and the cache stays sorted |
| `SortedMaps.SortedMap.Filter` | core/tx_list.go:104-125 | exactly the transactions that match leave, each once |
| `SortedMaps.SortedMap.Cap` | core/tx_list.go:129-150 | the lowest nonces up to the limit stay, the others leave highest first |
| `SortedMaps.SortedMap.Remove` | core/tx_list.go:154-171 | the nonce is gone, and the answer says whether it was there |
| `SortedMaps.SortedMap.Ready` | core/tx_list.go:180-195 | the maximal consecutive run from the smallest nonce, unless that is above the start |
| `SortedMaps.SortedMap.Flatten` | core/tx_list.go:205-218 | the answer is the nonce-sorted contents, whether or not it was cached |
| `SortedMaps.SortsUnique` | core/tx_list.go:205-218 | there is one nonce-sorted list of a map, so the cache equals a fresh sort |
| `TxLists.TxList.Add` | core/tx_list.go:254-272 | a replacement needs the price bump exactly; caps still bound every paying transaction |
| `TxLists.TxList.Forward` | core/tx_list.go:277-279 | exactly what lies below the threshold leaves |
| `TxLists.TxList.Filter` | core/tx_list.go:290-317 | removes exactly what a full scan would, short circuit or not, and in a strict list all above too |
| `TxLists.NothingExceeds` | core/tx_list.go:292-294 | when the caps are within the limits no transaction exceeds them |
| `TxLists.TxList.Invalid` | core/tx_list.go:320-418 | invalid transactions leave, and in a strict list all above the first; all of them are returned |
| `TxLists.TxList.Cap` | core/tx_list.go:422-424 | the lowest nonces up to the limit stay |
| `TxLists.TxList.Remove` | core/tx_list.go:429-440 | the transaction leaves and, in a strict list, all above it, which are returned |
| `TxLists.StaysGapFree` | core/tx_list.go:277-440 | a gap-free strict list stays gap-free under every removal and every cut |
| `PricedLists.PricedList.Put` | core/tx_list.go:507-509 | the price heap gains exactly one entry |
| `PricedLists.PricedList.Removed` | core/tx_list.go:514-528 | entries stay as they were up to a quarter of stale ones, and are then rebuilt to be exactly the pool |
| `PricedLists.PricedList.Cap` | core/tx_list.go:532-559 | only remote transactions below the threshold leave, and none of them stays |
| `PricedLists.PricedList.Underpriced` | core/tx_list.go:563-585 | the answer is that of a scan of the whole pool, despite stale entries |
| `PricedLists.PricedList.Discard` | core/tx_list.go:589-612 | no local is dropped, and no live remote entry that stays is cheaper than one dropped |
| `PricedLists.CheapestIsTop` | core/tx_list.go:568-584 | once the top is live it is a cheapest transaction of the pool |
| `FairCuts.CapOne` | core/tx_list.go:129-150 | the highest nonce leaves, the others stay |
| `FairCuts.PopLongest` | core/tx_pool.go:1021-1024 | the next offender is a longest of those left |
| `FairCuts.Equalize` | core/tx_pool.go:1004-1074 | water-filling: one level c, at least the account's slots, to which every longer remote list is cut; within the limit or c is the slots; never a full round too far |
| `TxPools.ChangeOk` | core/tx_pool.go:709-730 | the pool invariant survives any change of one account whose transactions are its own, known, and not at a nonce twice |
| `TxPools.TxPool.EnqueueTx` | core/tx_pool.go:709-730 | exact acceptance by price bump; invariant kept; only the replaced transaction is forgotten |
| `TxPools.TxPool.PromoteTx` | core/tx_pool.go:747-779 | exact acceptance; the transaction becomes pending and the next nonce follows it, or it is forgotten; exactly the replaced one is forgotten |
| `TxPools.TxPool.RemoveTx` | core/tx_pool.go:876-915 | exact new lists and next nonce of the account: later pending ones are queued unless nothing is left pending |
| `PoolGaps.RemovalListsAll` | core/tx_pool.go:890-915 | a removal keeps all other known transactions listed if and only if the removed one does not lead others that are pending |
| `PoolGaps.UnlistedPool` | core/tx_pool.go:890-905 | a pool in which two transactions became pending and the first was removed: the second is known and on no list |
| `TxPools.TxPool.SetGasPrice` | core/tx_pool.go:465-474 | the pool is left with exactly the locals and what pays the price, the others having been removed one after the other |
| `TxPools.TxPool.Add` | core/tx_pool.go:636-704 | exact outcomes, lists, known set and locals: in a full pool the cheapest remote transactions, as many as needed, are removed one after the other; then the transaction takes the place of the rival it outbids or is queued, and nothing else on any list changes |
| `TxPools.TakeReady` | core/tx_list.go:180-195 | the maximal run from the smallest nonce is taken off a list |
| `TxPools.TxPool.PromoteAccount` | core/tx_pool.go:928-1003 | from the pool's next nonce, or the chain's where the pool has none, the executable run of what is young, payable and valid becomes pending and the next nonce follows it; a remote account keeps its lowest queued nonces; exactly the rest is forgotten |
| `PoolGaps.PromotionGapFree` | core/tx_pool.go:983-988 | promotion keeps a gap-free pending list gap-free, whatever is queued, if and only if the next nonce is below the account's own, or the list starts at most one above that and the next nonce is at most one beyond its end |
| `PoolGaps.GappedPool` | core/tx_pool.go:410-431 | nonce 5 is pending and a new head goes back to nonce 3 and gives that back: reset leaves 3 and 5 pending |
| `PoolLimits.CutPending` | core/tx_pool.go:1004-1074 | the fairness cut on the pool: it forgets exactly what the lists lost, and each next nonce is kept or falls to the lowest one lost |
| `PoolLimits.LowerNonces` | core/tx_pool.go:1041-1044 | the next nonce of an account, the chain's where the pool has none, falls to the lowest dropped one and is otherwise kept |
| `PoolLimits.DropHighest` | core/tx_pool.go:1108-1114 | removing the highest nonces one by one leaves the lowest |
| `PoolLimits.CutQueue` | core/tx_pool.go:1075-1116 | the queue ends exactly at its limit or without remote transactions; a suffix of the order is emptied, one account trimmed, the rest untouched; the pool forgets exactly what left |
| `PoolLimits.DemoteAccount` | core/tx_pool.go:1124-1193 | exact new lists of the account, and the pool forgets exactly the old, unpayable and invalid |
| `PoolCycles.ByHeartbeat` | core/tx_pool.go:1080-1091 | the remote accounts of the queue by rising heartbeat, each once |
| `PoolCycles.DemoteUnexecutables` | core/tx_pool.go:1122-1195 | every account is demoted as it has to be, exactly what ends on no list is forgotten, and everything pending starts at its nonce and is payable |
| `PoolCycles.PromoteExecutables` | core/tx_pool.go:920-1117 | every account is promoted as it has to be, next nonces included, then both cuts are made and exactly what left a list for none is forgotten; afterwards the pool keeps to both limits, but for what is guaranteed to accounts and for locals |
| `SettledPools.PromotionSettles` | core/tx_pool.go:928-1003 | promotion keeps an account's pending list running exactly from its nonce on the chain to its next nonce, which moves behind the run |
| `SettledPools.CutSettles` | core/tx_pool.go:1004-1074 | so does the fairness cut, with the next nonces it lowers |
| `SettledPools.RemovalsSettle` | core/tx_pool.go:876-915 | so does any number of removals, with the next nonces they lower |
| `SettledPools.InsertSettles` | core/tx_pool.go:670-704 | so does an insertion |
| `SettledPools.SettledBetweenHeads` | core/tx_pool.go:636-1117 | between two heads, over every run of operations, all pending lists run exactly from their account's nonce to its next nonce |
| `PoolResets.AddTxsLocked` | core/tx_pool.go:843-864 | the batch as a run of exact additions, and then one promotion of exactly the accounts that got something new, if any; the limits hold after that |
| `PoolResets.BatchSettles` | core/tx_pool.go:843-864 | a batch keeps all pending lists running exactly from their account's nonce to its next nonce |
| `PoolResets.BatchGrounds` | core/tx_pool.go:843-864 | if no next nonce was above the chain's before, each that is afterwards stands on a pending transaction that is payable and valid |
| `PoolResets.SetNonces` | core/tx_pool.go:424-428 | the next nonce of every account with pending transactions is right behind the last of them, the others are kept |
| `PoolResets.Reset` | core/tx_pool.go:410-431 | reset as its steps, each exact in lists, nonces and known set; whatever the pool held and whatever is given back, afterwards everything pending is valid and payable and starts at its account's nonce, and the limits hold; with nothing given back, lists that ran to their next nonce still do |
| `PoolResets.SettledIfGapFree` | core/tx_pool.go:424-428 | once reset has set the next nonces, a list runs from the account's nonce to its next nonce if and only if it has no gap and, when empty, the next nonce is the chain's |
| `Distributors.Enqueue` | les/distributor.go:242-251 | trying the end first gives what an insertion before the first younger request gives |
| `Distributors.NextRequest` | les/distributor.go:178-227 | gives up exactly the leading requests nobody can serve; offers a peer only its earliest servable request; else the shortest wait; nothing only if the queue is empty |
| `DistributorLoops.QueueStep` | les/distributor.go:233-260 | queueing keeps order, open channels and at most one token |
| `DistributorLoops.ServeStep` | les/distributor.go:131-160 | each decision of the loop keeps the invariant, sends on an open channel and shortens the queue, or sets a timer |
| `DistributorLoops.StepInv` | les/distributor.go:114-285 | every step of queue, cancel, timer and loop, before and after the loop has ended, keeps the invariant |
| `DistributorLoops.WakeUps` | les/distributor.go:114-285 | in every run: sorted queue, at most one token, room for every send, and a token whenever the lock is free and the queue is not empty |
| `DistributorLoops.Progress` | les/distributor.go:114-162 | in every such state some move of the token is possible |
| `DistributorLoops.NeverSetBack` | les/distributor.go:114-162 | every move of the token brings the loop nearer to the lock, and no other event sets it back |
| `DistributorLoops.ClosesOnce` | les/distributor.go:117-125 | over every run, whatever closes a channel finds it open, unless it cancels a request that was queued when the loop ended; then, and only then, the program crashes |
| `DistributorLoops.OnlyCloseCrashes` | les/distributor.go:265-275 | nothing but such a cancel crashes the program |
| `DistributorLoops.CancelledTooLate` | les/distributor.go:265-275 | a run of four events that crashes: queue, stop, exit, cancel |
| `ChainIndexers.SetValidSections` | core/chain_indexer.go:370-382 | exactly the heads from the new count on are removed |
| `ChainIndexers.ProcessSection` | core/chain_indexer.go:310-335 | succeeds exactly if what it read is one chain on the old head, and links that head to the new one by the section's headers |
| `ChainIndexers.NewHeadExact` | core/chain_indexer.go:191-230 | a rollback keeps exactly the sections that end below it; a new head makes known exactly those with their confirmations |
| `ChainIndexers.NewHeadSound` | core/chain_indexer.go:191-230 | chain events, cascading through the tree, keep every indexer's heads exact and linked |
| `ChainIndexers.CommitChecks` | core/chain_indexer.go:273 | the commit check passes exactly if no reorganisation reached below the section meanwhile |
| `ChainIndexers.CommitSound` | core/chain_indexer.go:272-290 | a commit keeps the heads exact and linked whatever happened during processing |
| `ChainIndexers.NewHeadOrdered` | core/chain_indexer.go:191-230 | a rollback reaches every child that knows more than is left stored |
| `ChainIndexers.AddOrdered` | core/chain_indexer.go:348-358 | a new child knows no more than its parent stored |
| `ChainIndexers.RunSound` | core/chain_indexer.go:191-382 | in every run, heads exist for exactly the stored sections, each reached from the one before by the section's parent links |
| `ChainIndexers.RunOrdered` | core/chain_indexer.go:191-382 | in every run from a fresh start, with children only under sections of two blocks or more, no child knows more than its parent stored |
| `ChainIndexers.TightChild` | core/chain_indexer.go:196-214 | after a commit, a rollback of the last section keeps a child that knows everything in step if and only if sections have two blocks or more |
| `ChainIndexers.OneBlockSections` | core/chain_indexer.go:191-290 | a run of six states from a fresh start with sections of one block, at the end of which the child knows more than its parent stored |
| `ChainIndexers.ReopenedMissesRollback` | core/chain_indexer.go:84-101 | after a rollback to any block, the child that a reopened indexer adopted knows no more than is stored if and only if its confirmations outweigh the rollback |
| `ChainIndexers.ReopenedEqualSizes` | core/chain_indexer.go:191-214 | with equal section sizes and no confirmations every rollback of a stored section leaves that child ahead |
| `ChainIndexers.StoredPassesKnown` | core/chain_indexer.go:272-275 | when blocks are rolled back during processing and the section is then committed, no more is stored than known if and only if the rollback reached below the section or lies above it |
| `ChainIndexers.CommittedOverRollback` | core/chain_indexer.go:234-290 | a run of five states from a fresh start that ends with one section stored and none known |
| `GasPools.GasPool.SubGas` | core/gaspool.go:38-46 | more than there is cannot be taken, and a failure takes nothing |
| `StateTransitions.IntrinsicGas` | core/state_transition.go:93-123 | the counting loop computes the price by zero and non-zero bytes |
| `StateTransitions.IntrinsicIsPositive` | core/state_transition.go:93-123 | no message is free, even to a proof-of-stake contract |
| `StateTransitions.PreProcess` | core/state_transition.go:378-426 | a stamp pays for no more than its balance; if it yields gas it was unspent and is now spent; if not, nothing changed; a division by zero exactly for a well-formed stamp at price zero |
| `StateTransitions.SpentStampFails` | core/state_transition.go:466-485 | a message with a spent stamp is never accepted |
| `StateTransitions.StateTransition.BuyGas` | core/state_transition.go:186-211 | exact conditions; the whole gas is paid and taken from the block, or nothing is |
| `StateTransitions.StateTransition.RefundGas` | core/state_transition.go:329-346 | the refund is at most half the gas used; sender and block get the same gas back |
| `StateTransitions.StateTransition.TransitionDb` | core/state_transition.go:232-327 | applied exactly if acceptable and not refused by the EVM, crashed exactly if a privacy message with a well-formed stamp has price zero; the block loses exactly the gas used |
| `StateTransitions.FreeStampCrashes` | core/state_transition.go:398 | a privacy message of price zero that crashes, for any stamp in any world |
| `StateTransitions.PaidBalances` | core/state_transition.go:186-346 | whatever the EVM does, a normal or proof-of-stake message changes the sum of balances and fee sink by exactly what the EVM changed it |
| `StateTransitions.PaidConserves` | core/state_transition.go:186-346 | with an EVM that conserves value, a normal or proof-of-stake message keeps the sum of balances and fee sink |
| `StateTransitions.SenderPays` | core/state_transition.go:186-346 | beyond what the EVM moved, the sender pays gas used times price, and only the miner gains it |
| `StateTransitions.StampBalances` | core/state_transition.go:256-321 | whatever the EVM does, a privacy message adds to that change exactly the gas used times price, within its stamp's balance |
| `StateTransitions.StampConserves` | core/state_transition.go:256-321 | with an EVM that conserves value, a privacy message adds exactly its fee, and spends an unspent stamp |
| `StateProcessors.ApplyTransaction` | core/state_processor.go:102-155 | exact status, crash included; gas left plus gas used is unchanged, and the receipt's cumulative gas adds up |
| `StateProcessors.Process` | core/state_processor.go:68-96 | for every block: gas left plus gas used is the limit after every message, so all cumulative gas stays within it; it ends early exactly at the first message that cannot be applied, and crashes exactly if that one divides by zero |
| `StateProcessors.CumulativeRises` | core/state_processor.go:138-144 | cumulative gas never falls and never exceeds the total |
| `StateProcessors.SetReceiptsData` | core/blockchain.go:768-773 | each receipt's own gas is recovered from the cumulative gas of a processed block |
| `StateProcessors.BlockConserves` | core/state_processor.go:68-96 | over a block all value stays, but for what stamps paid |
| `StateProcessors.StampsPayOnce` | core/state_transition.go:466-485 | over any run of applied messages no key image is spent twice |
| `RingSignatures.RingSign` | crypto/crypto.go:408-509 | the loops compute the signature that closes the ring at the given position; no signature for an empty ring |
| `RingSignatures.VerifyRingSign` | crypto/crypto.go:513-596 | the loops accept exactly the signatures whose challenges sum up to the digest |
| `RingSignatures.Completeness` | crypto/crypto.go:408-596 | for every ring, position and randomness, a signature with the key of the first member is accepted |
| `RingSignatures.OneTimeKeyOpens` | crypto/crypto.go:600-704 | the derived one-time key is the key of the generated address, which the receiver recognises |
| `RingSignatures.OneTimeKeySigns` | crypto/crypto.go:408-704 | the derived one-time key signs for every ring that its address heads |
| `Base58.ConvertBack` | crypto/crypto.go:763-821 | changing the base and back restores all digits, leading zeros included, for any two bases |
| `Base58.Decode` | crypto/crypto.go:763-792 | the loops compute the change of base, and nothing for a string outside the alphabet |
| `Base58.Encode` | crypto/crypto.go:795-821 | the loops, with the reversal, compute the change of base in letters |
| `Base58.DecodeEncode` | crypto/crypto.go:763-821 | decoding undoes encoding for every byte string |
| `Base58.EncodeDecode` | crypto/crypto.go:763-821 | encoding undoes decoding if and only if the string is over the alphabet |

## Left out

- `ReadFrom`, `Draw` and the prefix of `ResetWithLength` of the parallel hasher, tree pool scheduling and slices shared with the caller.
- BmtSteps.CombineInv: a goroutine reads a node's flag and both halves in one step, and BmtMain.FinaliseInv writes a node's fields in one step; finer interleavings within these are not modelled.
- BlockChains.BlockChain.WriteBlockAndState: the proof-of-stake stage only; epoch quality and the engine's veto are parameters, block bodies, receipts and state are not stored, and writes do not fail.
- Total difficulties in the block store: one is written even when a reorganisation is then refused, so only their keys are constrained there.
- Head header and fast head markers, `SetHead`, `Rollback`, restarts, the chain quality cache and logs of removed blocks.
- A transaction is assumed to occur at most once on an ancestor path; header and block hashes are assumed free of collisions.
- Feeds.SendIsExactlyOnce: counts subscriptions; a channel subscribed twice gets the value twice. Type checks and channel buffers are not modelled.
- TxPools.TxPool.PromoteAccount: the pool keeps its lists as values; that the list objects compute these values is what `SortedMaps` and `TxLists` prove.
- PoolCycles.PromoteExecutables: takes accounts that are listed once, as all callers pass them.
- FairCuts.Equalize: the spam order compares lengths exactly, where the code compares them as 32-bit floats, which are exact below 2^24.
- PricedLists.PricedList.Removed: the stale counter is kept as the code keeps it, but nothing is claimed about how many entries are stale.
- PoolResets.Reset: the walk that finds the transactions to give back is not modelled, nor a failure to load the state.
- Timers, heartbeat updates, the journal, metrics and events of the pool.
- Distributors.NextRequest: the weighted random choice among ready peers may be any of them, and waits are natural numbers.
- ChainIndexers.RunSound: stored sections need not be canonical, since the commit check compares the previous head only; throttling and the update channel are left to nondeterminism.
- StateTransitions.StateTransition.TransitionDb: the ring's own gas is computed without wrap-around.
- StateTransitions.PaidConserves: deletion of empty accounts and block rewards are left out; that the EVM uses no more gas than given and keeps spent stamps is assumed of it.
- StateProcessors.BlockConserves: here the EVM is assumed to conserve value.
- RingSignatures.Completeness: points are elements of an abstract group, so encodings, the point at infinity and failures of the curve library are left out; soundness and anonymity are not claimed.
- Base58 prefixes and addresses, hex encodings, and key generation.
- LevelDB, RLP, JSON, RPC, p2p, the console, the EVM itself and consensus engines: plumbing, or parameters here.
