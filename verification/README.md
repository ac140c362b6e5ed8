# Verification of the go-420coin core

This project models the parts of a blockchain node that keep a fast, incrementally updated
structure in agreement with a simple specification, and proves that they do:

* **Header chain** (`BlockTree`, `HeaderRuns`, `HeaderChains`, `HashLookups`).  Headers form a
  tree.  The number-to-hash index, total difficulties and head markers are edited through
  batches and backward walks; they are proved to be, after every run of batch imports and
  rewinds, exactly what the stored headers and the head determine.  The shortcuts
  `GetAncestor` and `GetHashFn` agree with the plain parent walk.
* **Block chain** (`BranchWalks`, `BlockChains`).  Reorganisations move the index and the transaction lookup
  from one branch to another; both match the new branch.
* **Transaction pool** (`Transactions`, `Heaps`, `SortedMaps`, `TxLists`, `PricedLists`, `Sums`,
  `PoolBooks`, `PoolLists`, `Fairness`, `PoolSpecs`, `PoolGaps`, `TxPools`, `SlotBounds`).  Nonce
  heaps, cached orders, cached cost caps, a lazily cleaned price heap, a lookup with slot counts and
  the pending and queued lists agree after every operation.  An account's pending transactions are
  exactly those from its state nonce up to its pending nonce, which every operation keeps except a
  reset; for a reset it is proved exactly when it does.  Truncation of pending lists is max-min fair.
* **Pool reset and scheduling** (`Reinjections`, `ReorgSchedulers`).  A reset takes back exactly
  the transactions the new chain has lost.  Requests are merged into runs; each is
  served by a later run that covers it.
* **Section indexer** (`ChainIndexers`).  Sections are processed without a lock while the chain
  changes; stored section heads stay linked.
* **Event feed** (`Feeds`).  Each subscription gets each value once.
* **Smoke accounting** (`SmokeAccounting`) and **smoke limit** (`SmokeLimits`).

Mutable objects are classes with the fields of the program; loops are loops.  Each method is
proved against a function or predicate on values, and the laws are lemmas about those.  A class
invariant `Valid()` that every method keeps stands for every sequence of calls.

## Modelling decisions

* Hashes are numbers.  That the hash function has no collisions is expressed by an oracle that
  maps a hash to its one header; headers that agree with it are called genuine.  A transaction
  stands for its own hash.
* Integers are unbounded.  Where the width matters (`GetHashFn`, `IntrinsicSmoke`, the smoke
  pool, `CalcSmokeLimit`) the 64-bit bound is written out.
* A batch of database writes becomes visible when it is written; reads before that see the old
  index.
* Random choices, the clock, the virtual machine, heartbeats and everything read from the chain
  by the indexer are parameters; readiness of channels in the feed is nondeterministic.
* In the pool the list of an account is the value of its nonce map.  What `Forward`, `Filter`,
  `Cap`, `Ready` and `Add` do to that value is what `TxLists` proves of the list objects; for `Cap`
  the link is `PoolLists.CapIsCapped`.
* Where several transactions of one account leave or arrive at once, their order is left open
  unless the outcome depends on it.

## Where the program does less than one might expect

* Importing only known headers writes no index entries for them, yet can win the fork choice.
  Index and head then disagree.  `HeaderChains.HeaderChain.WriteHeaders` states exactly when;
  `HeaderChains.KnownSiblingUnsound` is an instance.
* A reorganisation to a lower block whose new segment is a single block leaves index entries
  above the new head.  `BlockChains.ReindexedExact` and `BlockChains.BlockChain.MakeHead` state
  exactly when; `BlockChains.HeavyUncleStale` is an instance.
* `GetAncestor` of the zero hash at a number beyond the index returns a canonical hash.
  `HeaderChains.HeaderChain.GetAncestor` states what the zero hash yields;
  `HeaderChains.ZeroHashAncestor` is an instance.
* The pool can hold more slots than its capacity, in two ways.  It measures fullness by the number
  of transactions and not by their slots, so that large ones fill it to almost four times its
  capacity (`SlotBounds.UnderCount`).  And a remote transaction that is evicted and sent again may
  be in the price heap twice (`PricedLists.Readd`, `SlotBounds.SendAgain`), so that discarding counts
  its slots twice; `SlotBounds.ListedTwice` is a run of the pool that ends above its capacity.
  `TxPools.TxPool.Add` states the slots after every addition, and the bound that holds if neither is
  the case.
* A reset can leave a gap in a pending list.  It sets the pending nonces back to the state nonce and
  promotes from there; if the state nonce has fallen and only some of the nonces in between were
  taken back, they end up in front of the old list with a hole (`PoolGaps.GapAfterReset`), and the
  pending nonce is set to follow the end of the list.  `PoolGaps.ResetGapless` states exactly when
  this happens: never if the state nonce does not fall and no pending nonce was set back below it.
  Truncation of such a list closes the gap exactly if the cut falls below the old list
  (`PoolGaps.CutBelow`).
* A reset can leave a transaction queued that comes next.  Since promotion starts at the state nonce,
  it does not look behind the pending list of an account (`PoolGaps.SameStateStrands`,
  `PoolGaps.StrandedAfterReset`); and if room for reinjected transactions is made by dropping a
  pending one that is already mined, the pending nonce falls below the state nonce and nothing is
  promoted (`PoolGaps.SetBackStrands`).  `PoolGaps.ResetStrands` states exactly when.  A promotion
  request that is merged into a run with a reset counts as covered all the same.
* An indexer that is reopened has forgotten its checkpoint
  (`ChainIndexers.ChainIndexer.Reopen`), and a header chain that is reopened takes the head block
  for its head (`HeaderChains.HeaderChain.Reopen`) until the block chain restores the head header
  from its marker (core/blockchain.go:446-452).  `ChainIndexers.ReopenedWithout` and
  `HeaderChains.ReopenedBehind` are instances.
* A pool reset whose old head is no longer stored is given up before the pool moves to the new
  head (`Reinjections.Reinjected`), and the run goes on with the old state.
* The smoke that a state transition reports as used is without the refund, although its comment
  says that the refund is included (`SmokeAccounting.StateTransition.TransitionDb`).
* `CalcSmokeLimit` can also raise the limit after a parent that used slightly less than the two thirds
  its comment speaks of, because both sides are rounded.  `SmokeLimits.DriftFollowsUse` states exactly
  when.
* `CalcSmokeLimit` moves a parent limit below 5120 by the full bound when its block is nearly
  full (`SmokeLimits.LimitClose`), while the validity of headers (section 4.3.4 of the Ethereum Yellow Paper) asks for strictly
  less.

## Model

| member | source | states |
|---|---|---|
| BlockTree.PathsConfluent | core/blockchain.go:2189-2213 | two ancestor paths of one tree that share a block share everything below it |
| BlockTree.PathStable | core/headerchain.go:179-190 | storing more headers changes neither the path nor the total difficulty of a stored header |
| BlockTree.AncestorLighter | core/headerchain.go:179-190 | a proper ancestor has strictly less total difficulty |
| HeaderRuns.AddedRooted | core/headerchain.go:153-207 | attaching a linked batch keeps the header tree rooted and closed under parents |
| HeaderRuns.LastIsNews | core/headerchain.go:181-194 | the unknown headers of a batch are a suffix of it |
| HeaderRuns.InsertConsistent | core/headerchain.go:149-297 | a batch with an unknown header leaves the index equal to the head's ancestor path and the head without a known child |
| HeaderRuns.InsertChooses | core/headerchain.go:209-224 | in total difficulties and numbers: the heavier of head and last header, of equally heavy ones the lower, of two at one number the coin's |
| HeaderRuns.RewindConsistent | core/headerchain.go:559-636 | a rewind keeps that, and ends at the requested number |
| HeaderRuns.RewindExact | core/headerchain.go:559-636 | a rewind forgets exactly the headers and index entries above the number, and the entry at the number is the new head |
| HeaderRuns.RunConsistent | core/headerchain.go:149-297 | in every run of inserts and rewinds every state is the one derived from its headers and head: index, total difficulties and markers |
| HeaderRuns.InsertKeepsHeaviest | core/headerchain.go:209-224 | fork choice never leaves a heavier header than the head, nor an equally heavy one with a lower number, and total difficulties stay right, whatever the index holds, known batches included |
| HeaderRuns.RunHeaviest | core/headerchain.go:209-224 | in every run of imports, of batches with known headers only too, the head is the heaviest of all stored headers and of the heaviest one with the lowest number |
| HeaderRuns.LegalImports | core/headerchain.go:149-297 | every insert of a run is such an import |
| HeaderRuns.RunRemembers | core/headerchain.go:181-207 | an insert-only run forgets no header and has a total difficulty for each |
| HeaderChains.Outcome | core/headerchain.go:209-297 | an import ends in a consistent state if and only if it brought news, lost the fork choice or ended in the head |
| HeaderChains.VerdictReports | core/headerchain.go:286-297 | the reported status and counts in terms of how the tree grew and what the head is |
| HeaderChains.KnownSiblingUnsound | core/headerchain.go:257-279 | a concrete chain where re-importing a stored sibling and winning the coin breaks index and head apart |
| HeaderChains.IndexMoved | core/headerchain.go:234-276 | the deletions and puts of one batch turn one path's index into the other's, exactly when the skipped numbers already agree |
| HeaderChains.RewindResult | core/headerchain.go:559-636 | deleting the collected headers and numbers and moving the head is the rewind of the specification |
| HeaderChains.HeaderChain.constructor | core/headerchain.go:79-116 | a fresh chain is the one derived from its genesis header |
| HeaderChains.HeaderChain.Reopen | core/headerchain.go:79-116 | on a database left by a consistent chain the head is the head block, or genesis if that is missing; consistent if and only if that was the head |
| HeaderChains.ReopenedBehind | core/headerchain.go:106-112 | a chain one header ahead of its head block that is inconsistent when reopened |
| HeaderChains.HeaderChain.StoreHeaders | core/headerchain.go:157-207 | what the import loop stores, its running total difficulty and the first inserted index are those of the batch specification |
| HeaderChains.HeaderChain.ClearAbove | core/headerchain.go:236-243 | the index deletions reach exactly from above the new head to the old tip |
| HeaderChains.HeaderChain.WalkBack | core/headerchain.go:244-256 | the backward walk stops at a common ancestor of both paths and rewrites everything above it |
| HeaderChains.HeaderChain.Rewrite | core/headerchain.go:234-276 | the new index is the new path if something was inserted; otherwise if and only if the old path already ran through the batch |
| HeaderChains.HeaderChain.MoveHead | core/headerchain.go:225-285 | index, persisted and in-memory head after a winning batch, with and without inserted headers |
| HeaderChains.HeaderChain.StoreBatch | core/headerchain.go:153-207 | after storing, tree and total difficulties are those derived from all headers; index and head are unchanged |
| HeaderChains.HeaderChain.ImportBatch | core/headerchain.go:149-297 | counts, status, headers, total difficulties and head of an attached batch; consistent again if and only if the import was sound |
| HeaderChains.HeaderChain.WriteHeaders | core/headerchain.go:149-297 | any linked batch: unknown ancestor and empty batch change nothing; otherwise the specified state, consistent if and only if the batch brought news, lost, or ends in the head; the head is chosen by total difficulty, number and coin, and the report follows from tree and head |
| HeaderChains.HeaderChain.LeftoverLevels | core/headerchain.go:599-608 | finds every level above the target that still has headers |
| HeaderChains.HeaderChain.Collect | core/headerchain.go:610-626 | collects all headers of the given levels, side chains included |
| HeaderChains.HeaderChain.DescendTo | core/headerchain.go:565-627 | the rewind loop ends on the path at the target and has marked exactly the headers above it |
| HeaderChains.HeaderChain.SetHead | core/headerchain.go:559-636 | the state is the rewound one: nothing above the target remains and everything else is derived again |
| HeaderChains.HeaderChain.WalkToAncestor | core/headerchain.go:431-452 | the loop of GetAncestor against the ancestor path, with the exact use of the budget; the zero hash yields an index entry exactly beyond the index |
| HeaderChains.HeaderChain.GetAncestor | core/headerchain.go:421-453 | the result is the exact ancestor if and only if it is in range, known and within budget, otherwise zero; and for the zero hash exactly what it yields |
| HeaderChains.ZeroHashAncestor | core/headerchain.go:431-452 | a chain on which the zero hash has the genesis block as its ancestor |
| HashLookups.WalkIsPath | core/evm.go:68-99 | the plain parent walk gives the ancestor path |
| HashLookups.HashLookup.GetHash | core/evm.go:68-99 | for every sequence of queries, in any order and for any 64-bit number, the answer is that of the plain parent walk |
| HashLookups.HashLookup.WalkFurther | core/evm.go:81-97 | a cache miss walks on correctly and leaves the cache a prefix of the walk |
| BranchWalks.MeetIsFork | core/blockchain.go:2189-2213 | the block where the walks meet is the highest common ancestor |
| BranchWalks.Descend | core/tx_pool.go:1151-1164 | the walk down one branch collects exactly its blocks and transactions |
| BranchWalks.Meet | core/blockchain.go:2189-2213 | the walk down both branches ends at their highest common ancestor |
| BranchWalks.Branches | core/blockchain.go:2169-2213 | for any two blocks of the tree: their highest common ancestor, both segments above it and the transactions of each |
| BlockChains.ReindexedAgrees | core/blockchain.go:2230-2259 | after the reorganisation and writing the head the index agrees with the new path up to the head |
| BlockChains.ReindexedExact | core/blockchain.go:2248-2256 | nothing is left above the new head if and only if it is not lower than the old one or the new segment has at least two blocks |
| BlockChains.HeavyUncleStale | core/blockchain.go:2248-2256 | a valid chain, a block the fork choice prefers, and an index entry above it after the move |
| BlockChains.ForkMeans | core/blockchain.go:2248-2256 | the exactness condition in terms a caller can check: numbers and the parent's place in the index |
| BlockChains.RelookedFinds | core/blockchain.go:2230-2247 | every transaction of the new chain is found at its number, whichever forks it was on |
| BlockChains.RelookedSound | core/blockchain.go:2242-2247 | no transaction is found that is not on the new chain |
| BlockChains.RelookedRight | core/blockchain.go:2230-2247 | a lookup index that matched the old chain matches the new one |
| BlockChains.BlockChain.ExtendTo | core/blockchain.go:771-798 | written on top of its parent, a block extends the head's path in both indexes, and an exact index stays exact |
| BlockChains.BlockChain.WriteNewChain | core/blockchain.go:2230-2241 | all new blocks but the head are written, oldest first |
| BlockChains.BlockChain.TrimIndex | core/blockchain.go:2248-2256 | deletes above the current head up to the first gap |
| BlockChains.BlockChain.Reorg | core/blockchain.go:2169-2259 | index and lookup after a reorganisation, for any two blocks of the tree |
| BlockChains.BlockChain.MakeHead | core/blockchain.go:1605-1619 | any stored block as new head: both indexes follow it, exact if and only if the move is clean; when the head header follows |
| BlockChains.BlockChain.StoreBlock | core/blockchain.go:1506-1527 | storing a block keeps every path and adds its total difficulty |
| BlockChains.BlockChain.WriteKnownBlock | core/blockchain.go:1478-1490 | makes a stored block the head, exact if and only if the move is clean |
| BlockChains.PicksHeaviest | core/blockchain.go:1587-1604 | the fork choice leaves no heavier block than the head, nor an equally heavy one with a lower number |
| BlockChains.BlockChain.Choose | core/blockchain.go:1587-1615 | in total difficulties and numbers which of head and block is the head: heavier, lower, preserved, coin |
| BlockChains.BlockChain.WriteBlock | core/blockchain.go:1502-1639 | unknown parent fails; otherwise the fork choice decides, the head stays the heaviest block, and the index stays exact if and only if the move is clean; the choice in total difficulties and numbers |
| BlockChains.GrownState | core/blockchain.go:1506-1527 | the chain invariant survives storing a block |
| Heaps.Push | core/tx_list.go:72-78 | the library heap behind the nonce and price heaps: pushing keeps heap order and adds exactly the element |
| Heaps.Pop | core/tx_list.go:83-97 | popping removes a least element and keeps heap order |
| Heaps.Init | core/tx_list.go:113-120 | heapifying permutes any sequence into heap order |
| Heaps.RemoveAt | core/tx_list.go:167-184 | removing at an index keeps heap order and all other elements |
| SortedMaps.SortedMap.Put | core/tx_list.go:72-78 | the map gets the transaction; heap and cache stay exact |
| SortedMaps.SortedMap.Forward | core/tx_list.go:83-97 | removes exactly the nonces below the threshold and returns them sorted |
| SortedMaps.SortedMap.Filter | core/tx_list.go:104-111 | splits the map by the predicate, heap and cache exact again |
| SortedMaps.SortedMap.Reheap | core/tx_list.go:113-120 | rebuilds the nonce heap from the map |
| SortedMaps.SortedMap.FilterItems | core/tx_list.go:124-138 | removes and returns exactly what satisfies the predicate |
| SortedMaps.SortedMap.Cap | core/tx_list.go:142-163 | keeps the lowest nonces up to the limit and returns the rest, highest first; a cached order is cut alike |
| SortedMaps.SortedMap.Remove | core/tx_list.go:167-184 | removes a nonce from map, heap and cache, and says whether it was there |
| SortedMaps.SortedMap.Ready | core/tx_list.go:193-208 | returns the maximal consecutive run from the lowest nonce, or nothing if that lies above the start |
| SortedMaps.SortedMap.Flatten | core/tx_list.go:215-236 | the contents sorted by nonce, cached or not |
| SortedMaps.SortedMap.LastElement | core/tx_list.go:240-243 | the transaction with the highest nonce |
| TxLists.TxList.Add | core/tx_list.go:278-303 | inserted if and only if the nonce is free or the price beats the old one by the bump; the caps still bound every transaction; the condition in prices |
| TxLists.OutbidsRaises | core/tx_list.go:279-293 | a replacement in numbers: a higher price, by the percentage up to less than one unit |
| TxLists.TxList.Filter | core/tx_list.go:321-350 | with the cached caps exactly what an uncached scan drops and, in a strict list, invalidates |
| TxLists.TxList.Remove | core/tx_list.go:361-372 | a strict list loses everything from the nonce on, a non-strict one only the nonce |
| TxLists.TxList.Ready | core/tx_list.go:381-383 | the run of the sorted map |
| TxLists.TxList.Cap | core/tx_list.go:354-356 | the cut of the sorted map |
| TxLists.TxList.Forward | core/tx_list.go:308-310 | the cut of the sorted map |
| TxLists.StrictFilterIsPrefix | core/tx_list.go:336-350 | a strict list loses exactly the suffix from its lowest offending nonce |
| TxLists.StaysContiguous | core/tx_list.go:308-372 | forwarding, capping, removing and filtering keep a contiguous strict list contiguous |
| PricedLists.Lookup.Add | core/tx_pool.go:1654-1666 | the slot count stays the sum over all known transactions if the transaction was not known, and goes wrong if it was |
| PricedLists.Lookup.Remove | core/tx_pool.go:1669-1686 | removes from whichever set has it, and keeps the slot count |
| Transactions.SlotsHold | core/tx_pool.go:1706-1708 | as few slots of 32768 bytes as hold the transaction |
| PricedLists.Lookup.RemoteToLocals | core/tx_pool.go:1690-1703 | moves exactly the remote transactions of the accounts and counts them |
| PricedLists.PricedList.Put | core/tx_list.go:459-464 | every live remote is in the heap again and the stale counter still covers the rest |
| PricedLists.PricedList.Removed | core/tx_list.go:469-477 | afterwards three times the heap is at most four times the live remotes; when it is rebuilt and when not |
| PricedLists.PricedList.Cap | core/tx_list.go:483-501 | returns exactly the live remotes below the price, and leaves the others listed as often as they were |
| PricedLists.PricedList.Underpriced | core/tx_list.go:505-524 | true if and only if there are remotes and none is cheaper |
| PricedLists.PricedList.PopCheapest | core/tx_list.go:530-543 | the popped remotes undercut all that stay, no more are popped than needed, and their slots with those left in the heap make up those there were |
| PricedLists.PricedList.Discard | core/tx_list.go:530-551 | frees the slots with the cheapest live remotes, never a local; gives up if and only if it is not forced and the live entries of the heap take up too few slots, which is the slots of the remotes if none is listed twice; in prices and nonces: what is dropped is cheaper than what stays, or as cheap and of no lower nonce, and comes in that order |
| PricedLists.FirstIsCheaper | core/tx_pool.go:594-606 | if some remote is cheaper than a transaction, the first one dropped for it is |
| PricedLists.LiveSlotsBound | core/tx_list.go:530-543 | the live entries of the heap take up at least the slots of all remotes, and exactly those if none is listed twice |
| PricedLists.TooFewSlots | core/tx_pool.go:600-609 | too little can be freed only if locals and new transaction need more than the capacity; exactly then if no remote is listed twice |
| PricedLists.PricedList.Reheap | core/tx_list.go:554-563 | the heap is exactly the live remotes |
| PricedLists.Readd | core/tx_list.go:459-477 | a remote that leaves and returns is in the heap once more than before if and only if its leaving did not have the heap rebuilt |
| PoolBooks.ErasePending | core/tx_pool.go:916-933 | removing a pending transaction and queueing the higher nonces keeps all books in agreement |
| PoolBooks.EraseQueued | core/tx_pool.go:934-944 | a known transaction not pending is queued, and removing it keeps the books in agreement |
| PoolBooks.InsertPending | core/tx_pool.go:618-642 | replacing a pending transaction keeps the books in agreement |
| PoolBooks.InsertQueued | core/tx_pool.go:666-701 | queueing a new transaction, or replacing a queued one, keeps the books in agreement |
| PoolBooks.PlacePending | core/tx_pool.go:1232-1239 | promoted nonces are free, and promotion keeps the books in agreement |
| PoolBooks.PlaceQueued | core/tx_pool.go:922-926 | demoted nonces are free, and queueing them keeps the books in agreement |
| PoolLists.CappedShape | core/tx_list.go:142-163 | capping keeps the lowest nonces, as many as allowed |
| PoolLists.CapIsCapped | core/tx_list.go:142-163 | the list that Cap leaves is the capped list of the pool |
| PoolLists.Ready | core/tx_list.go:193-208 | the bounds of the maximal executable run |
| PoolLists.GaplessIs | core/tx_pool.go:1091-1095 | with the pending nonce set to follow the list there is no gap if and only if the list is consecutive from the state nonce, or empty with the pending nonce there |
| TxPools.TxPool.constructor | core/tx_pool.go:262-314 | an empty pool is valid and no account has a gap |
| TxPools.TxPool.LowerNonce | core/tx_noncer.go:68-79 | one account's pending nonce becomes the lesser of the old and the given one, the others stay |
| TxPools.TxPool.EnqueueEach | core/tx_pool.go:922-926 | in an internal shuffle everything is inserted, nothing is replaced and nothing is missing from the lookup |
| TxPools.TxPool.PromoteRun | core/tx_pool.go:1232-1239 | no promotion meets an older transaction, and the pending nonce follows the run |
| TxPools.TxPool.RemovePart | core/tx_pool.go:1216-1228 | dropped transactions are always found in the lookup |
| TxPools.TxPool.RemoveTx | core/tx_pool.go:899-945 | the shelf entry removed is the transaction's own, the higher nonces are queued, the pending nonce falls, all books agree, no gap opens, and what becomes of the price heap |
| TxPools.TxPool.RemoveDrops | core/tx_pool.go:611-616 | the books are those of removing one after the other; all listed transactions leave, even if the heap listed one twice; no gap opens |
| TxPools.TxPool.SetSmokePrice | core/tx_pool.go:424-433 | exactly the remotes below the new price leave, the others stay listed as often as they were, and no gap opens |
| TxPools.TxPool.EnqueueNew | core/tx_pool.go:666-701 | a new transaction is queued unless an older one is better; lookup and heap follow |
| TxPools.TxPool.ReplacePending | core/tx_pool.go:618-642 | a pending transaction is replaced if and only if it is outbid |
| TxPools.TxPool.DropCheapest | core/tx_pool.go:600-616 | no local and nothing dearer than a surviving remote is dropped, and no more than needed; refuses if and only if not forced and the heap's live entries take up too few slots; enough slots are freed unless the heap lists a live remote twice; an account whose pending transactions are remote and of one price loses only the end of its list, and nothing of it is queued again |
| TxPools.TxPool.MakeRoom | core/tx_pool.go:592-617 | the exact condition for each refusal of a full pool, and otherwise the cheapest remotes dropped, enough and no more than needed |
| TxPools.TxPool.MarkLocal | core/tx_pool.go:648-653 | exactly the remote transactions of local accounts are moved over |
| TxPools.TxPool.Insert | core/tx_pool.go:618-661 | where the transaction goes, what it replaces, and which account becomes local |
| PoolSpecs.InsertedRaises | core/tx_pool.go:619-648 | a transaction is turned away exactly if one with its nonce is there whose price it does not raise enough |
| TxPools.TxPool.Admit | core/tx_pool.go:592-661 | a new and valid transaction: the exact condition for each refusal, what is dropped and that it is no more than needed, the books after the drops and after the insertion, and the slot bound |
| TxPools.TxPool.Take | core/tx_pool.go:574-661 | adding any transaction is one step of the shelves, and opens no gap |
| TxPools.TxPool.Add | core/tx_pool.go:574-661 | every outcome with its exact condition, underpriced in prices; the first one dropped for a remote transaction is cheaper than it; the cheapest remotes dropped, enough and no more than needed; the books after the drops and after the insertion, lookup and price heap included; the exact slots, and the bound when the pool was full, for locals too; transactions of one slot keep the bound; no gap opens; all books agree |
| SlotBounds.Passes | core/tx_pool.go:524-565 | the transactions of the following instances pass validateTx, whatever they carry |
| SlotBounds.AddFirst | core/tx_pool.go:592-661 | in a pool that is not full the first transaction of an account is always added, to slots, lookup and price heap |
| SlotBounds.UnderCount | core/tx_pool.go:593 | for every number of large transactions that could be sent, a pool that is never full and holds almost four times its capacity |
| SlotBounds.Evict | core/tx_pool.go:899-915 | evicting the only transaction of an account leaves its entry in the price heap if few enough entries are stale |
| SlotBounds.SendAgain | core/tx_pool.go:899-915 | evicted and sent again, a remote transaction is in the price heap once more, and all else is as before |
| SlotBounds.RaisePrice | core/tx_pool.go:424-433 | raising the minimal price leaves a transaction alone in the pool and listed twice |
| SlotBounds.Squeeze | core/tx_pool.go:600-616 | a full pool whose only remote is listed twice lets in a transaction of two slots and exceeds its capacity |
| SlotBounds.ListedTwice | core/tx_pool.go:600-616 | a run of additions, an eviction, a repeated addition and a raised price that ends in such a pool, with more slots than its capacity |
| PoolGaps.ErasedGapless | core/tx_pool.go:916-933 | removing any transaction leaves every account's pending nonces consecutive, and the pending nonce at their end |
| PoolGaps.AddStepGapless | core/tx_pool.go:574-661 | so does adding one, with all that is dropped for it |
| PoolGaps.DropsLoseEnd | core/tx_pool.go:600-616 | an account whose pending transactions are remote and of one price loses exactly the dropped ones, all from the end, and nothing goes back to its queue |
| PoolGaps.AddStepLocal | core/tx_pool.go:574-661 | a local account keeps every transaction when another is added, except one that is outbid by it |
| PoolGaps.ReinjectsGapless | core/tx_pool.go:1191-1196 | taking back any transactions leaves lists consecutive from wherever they began, and raises no pending nonce |
| PoolGaps.ReinjectsLocal | core/tx_pool.go:1191-1196 | a local account loses a transaction only to one of those taken back that outbids it |
| TxPools.TxPool.PromoteAccount | core/tx_pool.go:1212-1264 | one account: what is dropped, promoted and kept queued, and its pending nonce |
| TxPools.TxPool.PromoteExecutables | core/tx_pool.go:1206-1267 | each account's lists and pending nonce become what promotion of one account says, the others stay; nothing old, unpayable, over the limit or up to the pending nonce of the moment is left in their queues |
| PoolGaps.PromotedGapless | core/tx_pool.go:1232-1253 | promotion of an account without a gap opens none, and leaves nothing queued up to its new pending nonce |
| PoolGaps.PromoteLoses | core/tx_pool.go:1206-1265 | promotion makes nothing up, drops nothing pending, and loses a current transaction only to the limit of the queue, which is then full of lower nonces |
| PoolSpecs.WaitingSettled | core/tx_pool.go:1232-1253 | after promotion everything queued lies above the pending nonce and is payable |
| TxPools.TxPool.DemoteAccount | core/tx_pool.go:1407-1455 | one account: what is dropped, queued again and kept; a list with a gap in front is queued altogether |
| TxPools.TxPool.DemoteUnexecutables | core/tx_pool.go:1404-1456 | each account's lists become what demotion of one account says; every pending list then starts at the state nonce and holds only payable transactions |
| PoolSpecs.DemotedStarted | core/tx_pool.go:1407-1455 | what demotion keeps starts at the state nonce and is payable |
| PoolGaps.DemotionParts | core/tx_pool.go:1407-1455 | nonce by nonce: kept is what has nothing too dear up to it, if the state nonce is; queued is all else that is payable |
| Fairness.CapAllStep | core/tx_pool.go:1303-1324 | one round over the longest offenders lowers the common level by one |
| Fairness.LevelGap | core/tx_pool.go:1272-1354 | lowering the level by one frees at most one transaction per offender |
| Fairness.TakeNext | core/tx_pool.go:1292-1300 | the next spammer is no longer than the offenders already level |
| Fairness.FairMeans | core/tx_pool.go:1272-1354 | max-min fairness in lengths: offenders keep the smaller of their length and the level, others everything; the limit is met or no remote account exceeds its allowance; the overshoot is less than the number of offenders |
| Fairness.CountAll | core/tx_pool.go:1273-1276 | counts all transactions of a shelf |
| TxPools.TxPool.CapOne | core/tx_pool.go:1305-1322 | drops one account's highest pending transaction from all books, and its pending nonce follows |
| TxPools.TxPool.Round | core/tx_pool.go:1304-1323 | takes one transaction from each offender and lowers the total by their number |
| TxPools.TxPool.Equalize | core/tx_pool.go:1303-1324 | the rounds end when the pool fits or the offenders are down to the threshold |
| TxPools.TxPool.TakeOffender | core/tx_pool.go:1292-1326 | after each spammer is taken up all offenders are level as long as the pool is too full |
| TxPools.TxPool.TruncatePending | core/tx_pool.go:1272-1354 | the outcome is max-min fair: one common level, never below the allowance, and one level higher would not fit; pending nonces follow the dropped transactions and only those, and no gap opens |
| TxPools.TxPool.TruncateQueue | core/tx_pool.go:1357-1399 | drops exactly the overflow, in the order given, keeping the lowest nonces; locals, pending lists and pending nonces are untouched |
| TxPools.SortByBeat | core/tx_pool.go:1366-1373 | orders accounts by heartbeat, each once |
| PoolSpecs.TruncatedByBeat | core/tx_pool.go:1366-1399 | as long as an account has queued transactions left, those active before it keep all of theirs |
| Reinjections.LostAbove | core/tx_pool.go:1151-1177 | what only the old branch has above the fork is what the new chain has lost |
| Reinjections.ChildLosesNone | core/tx_pool.go:1121 | a child of the old head loses nothing, so that nothing has to be taken back |
| Reinjections.Reinjected | core/tx_pool.go:1117-1179 | exactly the transactions of the old chain that the new chain does not have are taken back if the heads are at most 64 blocks apart, and none otherwise; the reset is given up if and only if the old head is needed and gone |
| TxPools.TxPool.Reset | core/tx_pool.go:1180-1196 | the new head state, and every transaction taken back added in turn as adding says, nothing of a local account dropped for room; consecutive lists stay consecutive, and pending nonces start again at the state nonce and only fall |
| PoolGaps.ResetGapless | core/tx_pool.go:1078-1086 | after a reset an account has no gap if and only if its pending nonce was not set back below the state nonce, or the transaction there was pending and is payable; and if the state nonce fell and its transaction was taken back, all up to the old list were, unless that list was empty or begins with one too dear |
| PoolGaps.GapAfterReset | core/tx_pool.go:1191-1196 | nonces 3 and 4 pending, a state nonce that falls to 1, and only nonce 1 taken back, as a step of the shelves: 1, 3 and 4 pending |
| PoolGaps.GivenUpGapless | core/tx_pool.go:1078-1086 | a reset that is given up leaves an account without a gap if and only if its first pending transaction is still payable, and leaves nothing queued that comes next |
| PoolGaps.ResetStrands | core/tx_pool.go:1073-1086 | after a reset an account's next transaction is queued if and only if the pending list is kept whole and the transaction behind it was queued, or the pending nonce was set back and that at the state nonce is queued |
| PoolGaps.SameStateStrands | core/tx_pool.go:1191 | a reset to the same state leaves the next transaction queued for every account that has pending ones |
| PoolGaps.StrandedAfterReset | core/tx_pool.go:1191 | nonces 3 and 4 pending and 5 queued at state nonce 3: 5 stays queued |
| PoolGaps.SetBackStrands | core/tx_pool.go:1191-1196 | nonces 2 and 3 pending at state nonce 3 and nonce 2 dropped: the pending nonce falls to 2, and nonce 3 stays queued |
| PoolGaps.FairCut | core/tx_pool.go:1272-1354 | fair truncation cuts every list at its end and never to nothing |
| PoolGaps.CutStarted | core/tx_pool.go:1272-1354 | truncated lists still start at the state nonce |
| PoolSpecs.PromoteKeeps | core/tx_pool.go:1216-1253 | promotion loses no transaction of a local account that is neither old nor unpayable |
| PoolSpecs.DemoteKeeps | core/tx_pool.go:1407-1454 | demotion loses no transaction that is neither old nor unpayable |
| TxPools.TxPool.Rearrange | core/tx_pool.go:1078-1086 | every account's lists and pending nonce become what promotion and, after a reset, demotion say; local accounts are protected |
| TxPools.TxPool.TrimPending | core/tx_pool.go:1087-1088 | pending is cut only if there is too much of it, and then fairly; every list is cut at its end, no gap opens and local accounts are untouched |
| TxPools.TxPool.TrimQueue | core/tx_pool.go:1087-1089 | the queue is cut only if there is too much of it, and not below its limit, the most recently active accounts first and each from its highest nonces; then it is within its limit or only local; local accounts are untouched |
| TxPools.TxPool.SetNonces | core/tx_pool.go:1091-1095 | pending nonces follow the last pending transaction, others stay |
| PoolGaps.PlainRun | core/tx_pool.go:1050-1096 | an account without a gap has none after a run without a reset; its next transaction is queued if and only if the account was not treated, it was queued before and nothing was cut off |
| PoolGaps.GivenUpRun | core/tx_pool.go:1050-1096 | the same for a run whose reset was given up: the exact condition for gaps, and nothing queued that comes next |
| PoolGaps.CutBelow | core/tx_pool.go:1272-1354 | cutting a list after a reset leaves no gap if and only if there was none or the cut falls below the old list |
| PoolGaps.ResetRun | core/tx_pool.go:1050-1096 | the same for a run with a reset, truncation included: no gap if and only if the list was bridged, or was cut below the nonce at which it began before |
| TxPools.TxPool.StartedExecutable | core/tx_pool.go:1078-1086 | lists that start at the state nonce, are payable and have no gap are executable |
| TxPools.TxPool.BeginRun | core/tx_pool.go:1060-1062 | the reset of a run, or nothing if it is not asked for or given up |
| TxPools.TxPool.Trim | core/tx_pool.go:1087-1095 | both truncations and the pending nonces after them, account by account |
| TxPools.TxPool.RunReorg | core/tx_pool.go:1050-1096 | after any run: all accounts are promoted and demoted as specified and then truncated; the pool is valid and within its limits or without anything to drop; pending nonces follow the pending lists; for every account that had no gap exactly whether it has one now, and whether its next transaction is left queued for the truncation of the queue, with and without a reset; after a reset what has no gap is executable; and no local account has lost a transaction that is neither old nor unpayable, except to one taken back that outbids it |
| ReorgSchedulers.ResetSpan | core/tx_pool.go:1006-1014 | merged resets go from the first old head to the last new head |
| ReorgSchedulers.DirtyUnion | core/tx_pool.go:1016-1024 | merged promotions are exactly the union of the requested accounts |
| ReorgSchedulers.StepKeeps | core/tx_pool.go:980-1047 | every event keeps the books of requests and runs |
| ReorgSchedulers.RunKeeps | core/tx_pool.go:980-1047 | so does every sequence of events from the start |
| ReorgSchedulers.RequestServed | core/tx_pool.go:980-1080 | a request's channel is closed only after a run launched later that covers it; until then that run is active or about to be launched |
| ReorgSchedulers.ServedInTime | core/tx_pool.go:980-1047 | whatever was asked is done once the active run ends, the loop notices and the next run ends |
| ReorgSchedulers.RunExact | core/tx_pool.go:992-1003 | what a launched run was given: first old head, last new head, exactly the requested accounts |
| ReorgSchedulers.OneAtATime | core/tx_pool.go:991-1003 | at most one run is active, and no request waits while none is |
| ReorgSchedulers.ReorgScheduler.LaunchIfDue | core/tx_pool.go:992-1003 | the top of the loop, as in the state machine |
| ReorgSchedulers.ReorgScheduler.HandleReset | core/tx_pool.go:1006-1014 | a reset request is merged and answered with the next run's channel, as in the state machine |
| ReorgSchedulers.ReorgScheduler.HandlePromote | core/tx_pool.go:1016-1024 | a promotion request is merged and answered with the next run's channel, as in the state machine |
| ReorgSchedulers.ReorgScheduler.HandleDone | core/tx_pool.go:1035-1036 | the end of a run is noticed and the next one launched if due, as in the state machine |
| ChainIndexers.StepKeeps | core/chain_indexer.go:243-382 | every step keeps the stored heads linked |
| ChainIndexers.RunLinked | core/chain_indexer.go:243-429 | in every interleaving of head events, reorganisations, queries and processing, with arbitrary reads, stored heads are linked at exactly one section of parent steps |
| ChainIndexers.FinishKeeps | core/chain_indexer.go:348-368 | a section finished after a rollback is not stored; otherwise it connects to the last one |
| ChainIndexers.VerifyKeeps | core/chain_indexer.go:422-429 | rolling back keeps the links and ends at a matching head or at the checkpoint |
| ChainIndexers.VerifyRolls | core/chain_indexer.go:422-429 | the outcome of a rollback in terms of heads and reads: what is given up did not match, and the first that matches is kept |
| ChainIndexers.VerifiedCanonical | core/chain_indexer.go:422-429 | if the chain stays put during verification, every stored section above the checkpoint is canonical, even when the chain ends below what was stored |
| ChainIndexers.VerifiedExactly | core/chain_indexer.go:422-429 | if the chain stays put, exactly the canonical ones of the stored sections are kept; an index whose last head is canonical is left alone |
| ChainIndexers.ReorgMeans | core/chain_indexer.go:248-265 | after a reorganisation exactly the sections that end at or below the new head are stored and known, those below the checkpoint apart |
| ChainIndexers.ExtendMeans | core/chain_indexer.go:277-291 | a new head makes exactly the sections known whose last block has enough confirmations, once the chain agrees with the checkpoint |
| ChainIndexers.StartMeans | core/chain_indexer.go:320-336 | processing starts exactly if a known section is not stored, with the first such section on top of the last stored one |
| ChainIndexers.FinishMeans | core/chain_indexer.go:350-368 | a processed section is stored exactly if no section below it was rolled back meanwhile; otherwise there is a rollback |
| ChainIndexers.ChainIndexer.constructor | core/chain_indexer.go:103-143 | the index starts at its checkpoint |
| ChainIndexers.ChainIndexer.Reopen | core/chain_indexer.go:103-143 | on what an earlier run left linked: the section count is loaded, a checkpoint below it is ignored, and the heads are linked again if and only if the checkpoint is taken or all sections below the forgotten one connect |
| ChainIndexers.ReopenedWithout | core/chain_indexer.go:130-143 | an index that began at a checkpoint and is reopened with it: the checkpoint is ignored and a section below it is missing |
| ChainIndexers.ChainIndexer.SetValidSections | core/chain_indexer.go:479-491 | removes the heads of exactly the reverted sections; the step of the state machine |
| ChainIndexers.ChainIndexer.VerifyLastHead | core/chain_indexer.go:422-429 | exactly the last sections whose heads are not the blocks read are given up, down to one that is or to the checkpoint; everything else stays |
| ChainIndexers.ChainIndexer.NewHead | core/chain_indexer.go:243-300 | both kinds of head event; the step of the state machine |
| ChainIndexers.ChainIndexer.Begin | core/chain_indexer.go:317-337 | the job remembers the section and the head it connects to; the step of the state machine |
| ChainIndexers.ChainIndexer.ProcessSection | core/chain_indexer.go:388-417 | succeeds if and only if every block is read, connects and is taken and the section is committed; the result is the last block of a genuine chain of section size that connects to the given head |
| ChainIndexers.ChainIndexer.End | core/chain_indexer.go:348-368 | stores the section only if it still connects; the step of the state machine |
| ChainIndexers.ChainIndexer.Sections | core/chain_indexer.go:434-440 | reports only verified sections; the step of the state machine |
| Feeds.Deactivated | event/feed.go:228-232 | swapping to the end of the active part removes exactly the chosen case from it |
| Feeds.Deleted | event/feed.go:223-225 | deleting shrinks the active part exactly if the case was active |
| Feeds.OncePerChannel | event/feed.go:126-190 | a channel subscribed once gets the value exactly once if it stays, and at most once if it is removed meanwhile |
| Feeds.Stayers | event/feed.go:126-190 | a channel that does not ask to be cancelled gets the value as often as it is subscribed |
| Feeds.Find | event/feed.go:213-220 | the first index of a case, or -1 if there is none |
| Feeds.Feed.Subscribe | event/feed.go:72-92 | the feed has the channel's subscription once more, and Remove takes it back |
| Feeds.Feed.QuitInbox | event/feed.go:103-113 | cancels one subscription in the inbox if there is one |
| Feeds.Feed.Remove | event/feed.go:103-124 | exactly one subscription of the channel is gone, from the inbox first; undoes Subscribe |
| Feeds.Feed.Send | event/feed.go:128-190 | ends after finitely many send and remove steps; whoever does not ask to be cancelled gets the value once per subscription, whoever is cancelled at most once; only what asked for it is cancelled, in turn; the count is right; the subscriptions are then the originals without the cancelled, and the inbox is what others made of it meanwhile |
| Feeds.Feed.TryAll | event/feed.go:156-165 | the fast path delivers at most once to each |
| Feeds.Feed.Deactivate | event/feed.go:228-232 | the active part loses exactly the chosen case |
| Feeds.Feed.SelectOne | event/feed.go:169-181 | one delivery, or the removal of the next subscription that asked for it |
| SmokeAccounting.DivisionTest | core/state_transition.go:127-138 | the overflow test by division is exact |
| SmokeAccounting.IntrinsicSmoke | core/state_transition.go:108-142 | the byte-by-byte price, failing if and only if it does not fit into 64 bits; in numbers, by the count of zero bytes |
| SmokeAccounting.IntrinsicPriced | core/state_transition.go:108-142 | the price summed byte by byte is 20000 or 50000, plus 4 per zero byte and 68 or 16 per other byte |
| SmokeAccounting.MessageConserves | core/state_transition.go:219-295 | a valid message conserves all money and uses at least half its intrinsic smoke |
| SmokeAccounting.CheckMeans | core/state_transition.go:176-253 | a message is valid exactly if nonce, balance, room in the block and smoke fit, and an error names a condition that fails |
| SmokeAccounting.EnteredMeans | core/state_transition.go:184-264 | for the machine the sender has paid for all the smoke and the nonce of a call is used up, and nothing else changed |
| SmokeAccounting.SettlePays | core/state_transition.go:265-290 | sender and miner are paid for what is left and what was used, and nobody else |
| SmokeAccounting.SmokePool.AddSmoke | core/smokepool.go:29-35 | panics if and only if the sum does not fit into 64 bits |
| SmokeAccounting.SmokePool.SubSmoke | core/smokepool.go:39-45 | fails if and only if the pool has less |
| SmokeAccounting.StateTransition.PreCheck | core/state_transition.go:176-204 | nonce, balance and pool checks in order, and the smoke bought |
| SmokeAccounting.StateTransition.RefundSmoke | core/state_transition.go:275-295 | the refund is what the machine granted or half of what was spent, whichever is less; the sender gets the price of what is left and the pool that smoke; panics exactly beyond 64 bits |
| SmokeAccounting.StateTransition.TransitionDb | core/state_transition.go:219-273 | an error if and only if a check fails, and which; otherwise the settled state; pool and used smoke add up and the pool never panics; the largest refund within both limits, and who is paid how much |
| SmokeAccounting.ApplyConserves | core/state_processor.go:92-119 | money is conserved and the pool shrinks by what was used |
| SmokeAccounting.StateProcessor.ApplyTransaction | core/state_processor.go:92-125 | the receipt's used and cumulative smoke, the refund in it, and whether the machine failed |
| SmokeAccounting.StateProcessor.Process | core/state_processor.go:58-90 | after each message pool and cumulative smoke of its receipt make up the limit and money is conserved; receipts add up, have the largest refund taken off and tell which messages failed in the machine; no panic; a block fails if and only if some message is not valid when its turn comes, and at the first such message |
| SmokeAccounting.ValidateTx | core/tx_pool.go:524-565 | passes if and only if all conditions hold |
| SmokeAccounting.ValidatedPasses | core/state_transition.go:191-246 | a validated transaction with the right nonce and room in the block meets every check |
| SmokeAccounting.SenderAfter | core/state_transition.go:219-290 | the sender has paid at most the announced cost and the next nonce is due |
| SmokeAccounting.BatchExecutes | core/tx_pool.go:524-565 | a run of consecutive validated transactions covered by the balance executes completely |
| SmokeLimits.DriftBound | core/block_validator.go:109-140 | how far the limit moves without floor and ceiling, with the one exception |
| SmokeLimits.LimitClose | core/block_validator.go:109-140 | never below the minimum, and within the bound if and only if the parent is not below 5120 and nearly full with floor and ceiling out of the way |
| SmokeLimits.DriftFollowsUse | core/block_validator.go:110-126 | the limit drifts up after a parent that used two thirds of it, not up after clearly less, and never lower for more use |
| SmokeLimits.StaysBetween | core/block_validator.go:127-138 | between floor and ceiling the limit stays there, and from outside it moves towards them without passing |
| SmokeLimits.MinimumMovesTooFar | core/block_validator.go:109-140 | a full parent at the minimum moves by the bound itself |
| SmokeLimits.StepHones | core/block_validator.go:109-140 | with floor and ceiling at a target one step never moves past or away from it, and comes at least three closer |
| SmokeLimits.Converges | core/block_validator.go:109-140 | whatever the usage, the limit moves monotonically to the target, reaches it within its distance and stays |

## Left out

- Least-recently-used caches and the abort of a header import after the caches are filled: each cache is taken to agree with the map behind it.
- The ancient store, fast sync, receipt import, `SetHeadBeyondRoot`, trie garbage collection, snapshots and transaction index maintenance: they depend on storage that is not modelled; the head block and the head header are those of full sync.
- Logs, events, metrics, journal files and the payload of feeds.
- The virtual machine, state tries, encoding, signatures and the consensus engine; block rewards and the one-time fork step of `Process`.
- The loading of reinjected transactions by their hashes: `Reinjections` finds which they are, and `Reset` takes them with the verdict of `validateTx` for each.
- The eviction of queued transactions after a lifetime: it is a loop over `RemoveTx`.
- The caching of state nonces in the pending nonce tracker: the state does not change under it.
- Child indexers and `cascadedHead`, a failing backend `Reset`, and checkpoints added after the start of the indexer.
- The type check and the blocking of `Feed`, and the shutdown of the scheduler, which closes the last channel without a run.
- Update in place and aliasing of list objects inside the pool: an account's list is a value there.
- The removal from the lookup of a transaction that an internal move replaces, and of a promotion that is refused: `TxPools.TxPool.EnqueueEach` and `TxPools.TxPool.PromoteRun` show that neither occurs.
- TxPools.TxPool.RunReorg: says of an account that had a gap before the run only what promotion, demotion and truncation of one account say, because what becomes of its gap depends on which nonces are missing.
- SmokeAccounting.StateTransition.TransitionDb: says nothing of the state after an error, because a block with an invalid message is discarded.
- ChainIndexers.ChainIndexer.ProcessSection: takes one read per block, because no block is read twice.
