# Verified model of go-scdo

A Dafny model of the parts of go-scdo, a sharded proof-of-work blockchain node, that carry most state and most
branching, with machine-checked proofs of what they promise.

- **Trie** (`Trie*.dfy`). The Merkle trie as trees (`TrieTree`), as encoded nodes (`TrieCodec`), as mutable nodes with
  cached hashes over a database (`TrieNodes`) and as a finite map (`TrieCanonical`, `TrieRuns`); proofs of inclusion in
  `TrieProof`, and a run after which a stored key has none in `TrieHidden`.
- **Transaction pool and miner** (`Heap`, `PoolQueue`, `Pool`, `Miner`, `Reinject`). Indexed heaps with the algorithms
  of Go's `container/heap`, two account heaps over per-account nonce heaps, the pool with its capacity, the packing of a
  block and the objects that return on a fork switch.
- **Canonical chain** (`ChainIndex`, `Chain`, `CanonicalChain`, `Recovery`, `Reorg`, `LostDebt`, `SecondCrash`, `Forks`,
  `Admission`, `Leaves`, `Difficulty`, `CachedStore`). The height map and the transaction and debt indices through a
  reorganisation, the recovery point and what any number of crashes can lose, common ancestors and debts, blocks
  entering the store with the choice of the head, and the caches in front of the store.
- **State and coins** (`StateObjects`, `Statedb`, `Flush`, `Svm`, `Conservation`, `Shards`, `Rewards`, `Htlc`). The
  journaled state database and what it writes to its trie, system-contract transactions, coins across shards as a
  ledger and on the state databases themselves, block rewards and the hash-time-lock contract.
- **Contract support** (`Jumpdest`, `AbiWords`, `Abi`, `AbiLayout`, `AbiReads`, `AbiCalls`). Jump-destination analysis,
  the ABI round trip, the layout of what is packed and the meaning of whatever is unpacked.

## How to read it

Code that changes objects in place is modelled by classes whose methods are proved against functions on values; what the
source promises is then proved about those functions, or kept as an invariant by every method. Loops of the source are
loops of the model.

- Hash functions and the RLP parser are parameters. Where a theorem needs that hashes do not collide, it asks so only
  for the encodings that take part in it.
- The writes that survive a crash are single steps of `Reorg.Store`. Every write of a reorganisation has its own name
  (`CanonicalChain.Write`) and happens at most once, so a machine that stops before the write `stop` is one that stops
  after any number of writes; the theorem about recovery is for every such write.
- Time, validation results, contract results and cache evictions are parameters of the methods that meet them.
- The predicates `Opened`, `Unfolded`, `Seen`, `Stood`, `Rooted`, `Checked`, `Gathered`, `Tallied`, `Abi.Shown` and
  `Via` are always true. Stating a definition under such a predicate keeps it closed in proofs that do not need it.
- Big integers are unbounded, 64-bit arithmetic is written out where it can wrap, and `nil` and empty byte slices are
  not told apart, as in the source's own comparisons.

Where comments and code of the source differ, the model follows the code: the gas refund is capped at half of the used
gas, not at a fifth (`core/svm/svm.go:119-127`); `getStateObject` returns nothing for a missing account and does not
create one (`core/state/statedb.go:226-254`); a failed transaction at or below the nonce fork height leaves no nonce
(`core/svm/svm.go:91-97`).

Seven promises do not hold without a condition. Each has an input that breaks it and a condition that is proved exact.

- Proofs of inclusion: a stored key is found absent exactly when its path ends in the terminator slot of a branch
  (`TrieProof.HiddenIffEndsInBranch`). After every run without DeletePrefix those are the strict prefixes of other
  stored keys (`TrieRuns.ProvableAfterRun`). DeletePrefix can leave an emptied branch in place, and then the only stored
  key of a trie has no proof (`TrieHidden.OnlyKeyIsHidden`).
- Recovery after a crash: a stop loses a debt entry exactly when the indices of a leaving block have just been deleted
  and one of its debts is in no block of the new branch that is in place (`Reorg.Store.CrashAndRecover`). Recovery is
  right for every stop exactly when there is no such block (`CanonicalChain.CoveredIffNoneLoses`). After a stop that
  loses an entry, the block in question stays where it was; `LostDebt.StaysAfterRecovery` is one.
- Crashes during recovery: recovery does not move the recovery point, so one that starts again can meet the gap that the
  last one left, or a debt entry that it had deleted. From any state that crashes leave, recovery completes exactly when
  the block at the recorded height, or else the next one, can be cleared or nothing is left above the head, and the same
  holds for the walk below it (`Recovery.RecoverMeans`, `SecondCrash.RecoverAtLast`). After a stop right behind
  onPutBlockEnd and a second one during recovery, that is so exactly when at most one block had been handled and the
  second stop loses no debt entry (`SecondCrash.StopTwice`). `LostDebt.StaysAfterSecond` is one where it is not.
- Debts applied once: the check of a block looks at the blocks below it and not at its own list. No debt is in two
  blocks of a branch (`Forks.OneBlockPerDebt`), and each is applied once exactly when no block repeats one in its own
  list (`Forks.DebtOncePerBranch`, `Forks.TwiceInOneBlock`).
- Coins across shards: fees are lost when the creator of a block has no account (`Conservation.RunConserves`,
  `Shards.RunShards`, `Conservation.LossExample`).
- Roots of transactions: Hash writes the accounts that the journal names, and Prepare empties the journal. The trie
  shows an account exactly when the journal names it or it was shown when the journal was last emptied (`Flush.Hash`,
  `Flush.ForgottenByPrepare`). Where every transaction ends in Hash, as in a block, every root is complete
  (`Flush.Transactions`), and what Commit writes always is (`Flush.Commit`).
- The ABI round trip: it fails when an empty fixed array stands at the very end of the encoding, and changes big
  integers that do not fit into 256 bits (`Abi.RoundTripExact`, `Abi.EmptyArrayFails`, `Abi.TooLargeChanges`).

## Model

| member | source | states |
|---|---|---|
| `TrieKeys.KeyBytesToHex` | trie/trie.go:621-630 | byte i of the key gives the nibbles 2i, the high one, and 2i + 1, the low one, and the terminator 16 stands behind them |
| `TrieKeys.PrefixIffBytePrefix` | trie/trie.go:98-112 | the nibbles of a byte string are a prefix of an encoded key exactly when the byte string is a prefix of the key |
| `TrieKeys.HexInjective` | trie/trie.go:621-630 | different keys have different encodings |
| `TrieKeys.MatchKeyLen` | trie/trie.go:632-645 | the loop returns the length of the common prefix, characterised by MatchLenUnique |
| `TrieKeys.MatchLenUnique` | trie/trie.go:632-645 | the only length at which two keys agree before and differ, or one ends, after |
| `TrieTree.InsertWellFormed` | trie/trie.go:255-361 | insertion keeps the shape: values only below the terminator, children of the right kind |
| `TrieTree.InsertLookup` | trie/trie.go:255-361 | after insertion the inserted key reads the new value and every other key reads as before |
| `TrieTree.DeleteWellFormed` | trie/trie.go:363-463 | deletion of a key or of a prefix keeps the shape, through all compactions of branches and extensions |
| `TrieTree.DeleteLookup` | trie/trie.go:363-463 | deletion removes exactly the key, or exactly the keys below the prefix, and every other key reads as before |
| `TrieTree.DeleteReports` | trie/trie.go:363-463 | deleting a key reports true exactly when the key was present |
| `TrieTree.DeleteMiss` | trie/trie.go:363-463 | a deletion that reports false leaves the tree as it was |
| `TrieCodec.DecodeEncode` | trie/trie.go:482-587 | decoding an encoded node gives the node back |
| `TrieCodec.DecodeProper` | trie/trie.go:482-587 | whatever bytes are decoded, the node that comes out is encoded to something that decodes to it |
| `TrieCodec.EncodeInjective` | trie/trie.go:216-251 | different nodes have different encodings |
| `TrieCodec.EncodeIsLayout` | trie/trie.go:166-191 | what is hashed and stored: for a leaf the list of key and value, for an extension the list of the mark 1, its key and the hash below, for a branch one inner list with the hash of child i at position i and an empty string for no child; the hash of a subtree is the hash of that item |
| `TrieCodec.DecodesWellShaped` | trie/trie.go:482-587 | an item is decoded exactly when it is a list of two strings, of three strings, or of one list of at least 17 elements or one string that parses into 17 |
| `TrieCanonical.InsertCanonical` | trie/trie.go:255-361 | trees built by insertion keep the canonical shape: no extension above an extension or a leaf, no branch with one child |
| `TrieCanonical.InsertStocked` | trie/trie.go:255-361 | insertion keeps a trie stocked: every part that is not empty holds a key, and the only child of a branch is a branch |
| `TrieCanonical.DeleteStocked` | trie/trie.go:363-463 | deletion of a key keeps a trie stocked and never empties a branch, through all compactions |
| `TrieCanonical.SameMapSameTree` | core/types/transaction.go:353-379 | canonical trees that hold the same map are equal |
| `TrieCanonical.PutOrderIrrelevant` | trie/trie.go:67-76 | any two sequences of Put from the empty trie that end in the same map build the same tree, hence the same root hash |
| `TrieCanonical.PermutationSameTrie` | core/types/transaction.go:353-379 | the order of the transactions does not matter for the trie behind the Merkle root |
| `TrieCanonical.DeleteMeans` | trie/trie.go:80-93 | on the map that the trie holds, Delete removes its key and says whether it was there |
| `TrieCanonical.DeletePrefixMeans` | trie/trie.go:98-112 | on the map that the trie holds, a non-empty DeletePrefix removes exactly the keys with that byte prefix |
| `TrieCanonical.HeldIffPresent` | trie/trie.go:115-124 | a lookup answers as the map that the trie holds |
| `TrieProof.Get` | trie/proof.go:117-147 | the loop follows one decoded node to the value, the next hash or the end, as StepFrom says |
| `TrieProof.VerifyProof` | trie/proof.go:81-115 | for the root hash of any non-empty trie and any proof map at all, a value that is returned is the value of the key in the trie; it stops by the height of that trie |
| `TrieProof.VisibleIsLookup` | trie/proof.go:117-147 | what the proof walk can see of a key is its value in the trie |
| `TrieProof.HiddenIffEndsInBranch` | trie/proof.go:81-147 | in every trie, the proof walk misses a stored key exactly when the path of the key ends in the terminator slot of a branch |
| `TrieProof.HiddenIffStrictPrefix` | trie/proof.go:81-147 | in every stocked trie, the proof walk misses a stored key exactly when the key is a strict byte prefix of another stored key |
| `TrieProof.PathIsWay` | trie/proof.go:29-61 | the nodes that GetProof collects are exactly those that stand at a strict prefix of the key, a leaf only when its own key begins the rest |
| `TrieProof.GetProofCovers` | trie/proof.go:23-76 | the nodes that GetProof collects are enough for the walk of its key |
| `TrieProof.VerifyOwnProof` | trie/proof.go:23-115 | in every trie, VerifyProof on the proof of a present key returns its value, or reports it absent exactly when its path ends in a branch; in a stocked trie those are the strict prefixes of other keys |
| `TrieNodes.Trie.Open` | trie/trie.go:43-55 | a trie opened at a stored root hash stands for the stored tree, read lazily |
| `TrieNodes.Trie.LoadNode` | trie/trie.go:466-479 | a node is loaded exactly when an item that describes one is stored under the hash; its key, value, next hash and the child in slot i are those at their places in the item, children stay hashes, and the node of a stored tree stands for that tree |
| `TrieNodes.Trie.Decode` | trie/trie.go:482-587 | the item of a leaf gives key and value in this order, that of an extension key and next hash behind the mark, that of a branch a child for every slot with a string of hash length; anything else fails |
| `TrieNodes.Trie.InsertNode` | trie/trie.go:255-283 | the in-place insertion over loaded and unloaded nodes refines the insertion on trees and marks what it changes dirty |
| `TrieNodes.Trie.DeleteNode` | trie/trie.go:363-463 | the in-place deletion refines the deletion on trees; a miss changes no node |
| `TrieNodes.Trie.GetNode` | trie/trie.go:589-619 | reading loads what it needs, answers the lookup and leaves the meaning and the cached hashes alone |
| `TrieNodes.Trie.NodeHash` | trie/trie.go:150-214 | incremental hashing returns the hash that the layout of the nodes gives when it is computed from scratch, leaves no dirty node below, and on commit stages every node and marks it persisted; a persisted node stages nothing |
| `TrieNodes.Trie.Put` | trie/trie.go:67-76 | the trie then stands for the tree with the key inserted |
| `TrieNodes.Trie.Get` | trie/trie.go:115-124 | the answer is the lookup in the tree, over any mix of loaded and unloaded nodes |
| `TrieNodes.Trie.Delete` | trie/trie.go:80-93 | the trie then stands for the tree after deletion, with its report |
| `TrieNodes.Trie.DeletePrefix` | trie/trie.go:98-112 | the empty prefix does nothing; otherwise the trie stands for the tree after prefix deletion |
| `TrieNodes.Trie.Hash` | trie/trie.go:127-135 | the root hash is the hash of the item that the layout prescribes for the root node, with the hashes below computed from scratch, after any interleaving of operations; the empty trie has the empty hash |
| `TrieNodes.Trie.Commit` | trie/trie.go:140-148 | the root hash is that of the layout as well, and the database with the batch applied stores the whole tree; a second commit of an unchanged trie writes nothing |
| `TrieNodes.Trie.GetProof` | trie/proof.go:23-76 | the proof map holds exactly the encodings of the nodes on the path of the key |
| `TrieRuns.RunTrie` | trie/trie.go:43-148 | every run of Put, Get, Delete, DeletePrefix, Hash, Commit, batch writes and reopening, over nodes in memory and nodes not loaded: operations answer as a finite map does and every root hash is that of a from-scratch recomputation, if no two of the encodings involved collide |
| `TrieRuns.CommitAndReopen` | trie/trie.go:43-55 | after a commit into any open batch is written, a trie opened at the returned root stands for the same tree and map, and the next commit finds what it needs |
| `TrieRuns.CommitInto` | trie/trie.go:140-148 | without collisions the commit succeeds beside what is stored, and every entry still lies under its own hash |
| `TrieRuns.ProvableAfterRun` | trie/proof.go:23-147 | after every run without DeletePrefix from the empty trie, a proof misses a stored key exactly when it is a strict prefix of another one |
| `TrieHidden.OnlyKeyIsHidden` | trie/trie.go:392-451 | Put AA, AA12, AA1210, AA13, Delete AA13, DeletePrefix AA12: AA is the only key left, nothing continues it, and no proof can show it |
| `Heap.Heap.Swap` | common/heap.go:53-57 | stored heap indices stay the real positions |
| `Heap.Heap.Fix` | common/heap.go:42-81 | after the rank of one item has changed, the heap is in order again and the indices are right, for strict and non-strict Less functions |
| `Heap.Heap.Push` | common/heap.go:60-64 | the heap then holds the item as well, in order and with right indices |
| `Heap.Heap.Remove` | common/heap.go:67-72 | exactly the item at the index leaves, whatever its rank has become, and the others stay in order |
| `Heap.Heap.Pop` | common/heap.go:67-81 | the top item leaves and the others stay in order |
| `Heap.RootFirst` | common/heap.go:75-81 | the top of a heap comes before every item in it |
| `PoolQueue.TxCollection.Add` | core/pool_object_collection.go:34-45 | an object with a known nonce replaces the old one in place; otherwise it is added to the nonce heap |
| `PoolQueue.TxCollection.Remove` | core/pool_object_collection.go:53-61 | exactly the object with that nonce leaves |
| `PoolQueue.TxCollection.Peek` | core/pool_object_collection.go:69-75 | the object with the lowest nonce, none for an empty collection |
| `PoolQueue.TxCollection.Pop` | core/pool_object_collection.go:78-82 | the object with the lowest nonce leaves |
| `PoolQueue.CmpOrder` | core/pool_object_collection.go:108-139 | the comparison of accounts is a total preorder, with empty collections last |
| `PoolQueue.AheadByCmp` | core/pool_object_collection.go:108-139 | an account does not lose the comparison exactly when the other one is empty, or its first object has the higher price, or the same price and no later time |
| `PoolQueue.NextIsDearest` | core/pool_object_collection.go:130-136 | no first object of an account has a higher price than the next object, and none at the same price is earlier |
| `PoolQueue.WorstIsCheapest` | core/pool_object_collection.go:130-136 | no first object has a lower price than that of a worst account, and none at the same price is later |
| `PoolQueue.TopIsBest` | core/pool_queue.go:35-49 | the tops of the two heaps are a best and a worst account, although the worst heap compares with a non-strict order |
| `PoolQueue.PendingQueue.Add` | core/pool_queue.go:52-71 | the object is filed under its account and nonce; both heaps keep order, indices and the same accounts |
| `PoolQueue.PendingQueue.Remove` | core/pool_queue.go:84-102 | exactly the object leaves, and its account with its last object |
| `PoolQueue.PendingQueue.Pop` | core/pool_queue.go:141-155 | the object returned has the lowest nonce of its account, its price is the highest of all first objects, and it came no later than any of them at that price |
| `PoolQueue.PendingQueue.Discard` | core/pool_queue.go:160-177 | nothing is discarded exactly when no account has a first object below the price; otherwise an account goes with all its objects whose first object has the lowest price of all, and of those at that price came last |
| `PoolQueue.PendingQueue.Get` | core/pool_queue.go:74-81 | the pending object of the account and nonce |
| `Pool.Pool.AddObject` | core/object_pool.go:264-314 | every outcome has its exact condition; pending and processing hashes stay disjoint parts of the pool and the pool within its capacity; what gives way is the replaced object or one evicted account |
| `Pool.Pool.DoRemove` | core/object_pool.go:342-348 | the hash leaves the pool, and whatever is pending at its account and nonce leaves the queue |
| `Pool.Pool.GetProcessable` | core/object_pool.go:384-409 | the objects popped one after the other, as long as the next one fits into the size; they become the processing set |
| `Miner.DrainInOrder` | core/object_pool.go:384-409 | a drain lists the nonces of every account in increasing order and leaves only later ones |
| `Miner.DrainAccounted` | core/object_pool.go:384-409 | what was pending is either drained or still pending, with nothing added |
| `Miner.PackBatch` | miner/task.go:157-179 | the accepted objects of a batch are packed in order; exactly the others leave the pool and give their size back; the queue is untouched |
| `Miner.Choose` | miner/task.go:144-183 | the loop ends; over all batches the packed transactions were pending and accepted in their turn, list the nonces of every account in increasing order and before those still pending, and fit into the size; what left the queue without being packed was refused in its turn, and the pool has lost exactly that; unless the size is used up, the next pending one would not fit |
| `Miner.ChooseDebts` | miner/task.go:79-120 | chooseDebts has the same loop; the packed debts were pending and accepted in their turn, come in nonce order and add up with the remaining size to the block limit; what left the queue otherwise was refused in its turn, and the pool has lost exactly that; unless the size is used up, the next pending one would not fit |
| `Miner.Pack` | core/blockchain.go:464-466 | debts and transactions of a packed block are together within the byte limit that validateBlock demands, each pending in its pool, accepted in its turn and in nonce order, and whatever else left a queue was refused; each pool has lost exactly that |
| `Reinject.GetReinjectObject` | core/object_pool.go:162-238 | on a fork switch the result is exactly the objects of the old branch above the lowest common ancestor that the new branch does not hold there |
| `ChainIndex.DeleteStep` | core/store/db_store.go:507-531 | deleting the index entries of a leaving block keeps the mixed state of a reorganisation, also when it is repeated |
| `ChainIndex.AddStep` | core/store/db_store.go:453-463 | adding the entries of an entering block keeps the mixed state, also when it is repeated |
| `ChainIndex.EnterStep` | core/store/db_store.go:453-463 | with its entries added, the block can join the canonical blocks, and wins over older blocks that hold the same items |
| `ChainIndex.MixedIsExact` | core/blockchain.go:741-769 | when the canonical blocks are one branch without repeats, the mixed indices are exact |
| `Reorg.Store.DeleteIndices` | core/store/db_store.go:496-531 | the entries that point to the block go; it fails, changing nothing, exactly when a debt of the block is not indexed |
| `Reorg.Store.PutHead` | core/store/db_store.go:157-204 | one batch files the new head, replaces the indices of the block it displaces and keeps everything else of the old branch |
| `Reorg.Store.DeleteCanonical` | core/blockchain.go:711-738 | the two writes, the failure on a missing debt entry and the stop before each of them are those of DropRun, of which Recovery.FirstDrop and Recovery.ClearsFrom say what they mean |
| `Reorg.Store.DeleteLarger` | core/blockchain.go:682-708 | with a recovery point nothing canonical is left above the new head, and a stop at any write leaves a state that the recorded height describes, with an entry missing exactly when that stop loses one; without one, the loop is LargerRun, stops and failures included |
| `Reorg.Store.OverwriteSingle` | core/blockchain.go:772-811 | the writes, the failure on a missing debt entry and the stop before each of them are those of PlaceRun, of which Recovery.PlaceAt and Recovery.FirstPlace say what they mean |
| `Reorg.Store.Overwrite` | core/blockchain.go:741-769 | with a recovery point the canonical chain is then exactly the new branch with exact indices, and a stop at any write leaves a state that the recorded hash describes; without one, the loop is StaleRun, stops and failures included |
| `Reorg.Store.WriteHead` | core/blockchain.go:395-419 | if the height map and the indices were exactly those of the old head, they are exactly those of the new head, with nothing above it |
| `Reorg.Store.WriteSide` | core/store/db_store.go:157-204 | a block that does not become the head, new or stored before, leaves the canonical chain exact |
| `Reorg.Store.Recover` | core/blockchain_recover.go:59-121 | from any state that any number of stops leave, the canonical chain becomes exactly the new branch with exact indices if and only if WillComplete, a condition on the store as it stands; where it fails, that part of the height map stays; a further stop leaves such a state again with the recovery point as it was |
| `Reorg.Store.FirstStop` | core/blockchain_recover.go:59-121 | after a first stop anywhere behind onPutBlockEnd, recovery completes unless the deletion it begins with misses a debt entry, and then the old block of that height stays |
| `Recovery.FirstDrop` | core/blockchain.go:711-738 | deleteCanonicalBlock where it has not been tried before: the block goes with its indices, and a stop leaves an entry missing exactly when that stop loses one |
| `Recovery.FirstPlace` | core/blockchain.go:772-811 | the same for overwriteSingleStaleBlock |
| `Recovery.PlaceAt` | core/blockchain.go:772-811 | at a height that may be half done: found in place, failing exactly on a missing debt entry, overwritten with its indices, or stopped in a state that can be resumed |
| `Recovery.ClearsFrom` | core/blockchain.go:682-708 | clearing upwards from a block whose debts are indexed ends above the old branch, or where the machine stops, and changes nothing below the new head |
| `Recovery.LargerMeans` | core/blockchain.go:682-708 | started again at the recorded height, it clears everything if and only if the block there, or else the next one, misses no debt entry, or nothing is left; otherwise it changes nothing |
| `Recovery.WalksDown` | core/blockchain.go:741-769 | walking down from a height in place ends with the new branch in place, or where the machine stops, and changes nothing above the new head |
| `Recovery.StaleMeans` | core/blockchain.go:741-769 | started again at the recorded hash, it puts the new branch in place if and only if the block there, or else the next one down, misses no debt entry, or all is in place; otherwise it changes nothing |
| `Recovery.RecoverMeans` | core/blockchain_recover.go:59-121 | both parts together: from any state that stops leave, exactly the new branch is canonical with exact indices if and only if Completes; and wherever it stops, it leaves such a state again |
| `Reorg.Store.CrashAndRecover` | core/blockchain_recover.go:145-198 | a stop before any of the writes that follow onPutBlockEnd, then recover: the store is as after an uninterrupted write if and only if that stop loses no debt entry, for blocks with any debts; where it loses one, the old block of that height stays in the height map |
| `CanonicalChain.SettledUnique` | core/blockchain.go:682-811 | there is one height map and one pair of indices that are exact for a branch, so the recovered store is the uninterrupted one |
| `CanonicalChain.DeleteAgainFails` | core/store/db_store.go:507-531 | in the middle of a reorganisation, deleting the indices of a leaving block a second time fails exactly when one of its debts is in no block of the new branch that is in place |
| `CanonicalChain.AddedCovers` | core/blockchain.go:772-811 | the same after the indices of the entering block have been added: its own debts are then covered as well |
| `CanonicalChain.CoveredIffNoneLoses` | core/blockchain_recover.go:59-121 | no stop loses a debt entry exactly when every debt of a leaving block, away from the height of the new head, is in a block of the new branch that is in place by then |
| `CanonicalChain.NoDebtsCovered` | core/blockchain_recover.go:59-121 | that is so when the blocks that leave have no debts, whatever the others have |
| `LostDebt.StaysAfterRecovery` | core/blockchain.go:711-738 | a store with a branch of two blocks, a rival head and a stop before the height of the second block is dropped: after recovery the rival is the head and the second block is still canonical above it |
| `LostDebt.StopLoses` | core/blockchain.go:711-738 | that stop is one that loses a debt entry |
| `SecondCrash.SecondAbove` | core/blockchain_recover.go:95-103 | nothing half done, recovery clears from a height and stops at another: the next one completes if and only if at most one block had gone and the stop loses no debt entry |
| `SecondCrash.SecondBelow` | core/blockchain_recover.go:107-114 | nothing half done, recovery clears, then overwrites from the parent of the head down and stops: the next one completes if and only if at most one block had been overwritten and the stop loses no debt entry |
| `SecondCrash.RecoverAtLast` | core/blockchain_recover.go:59-121 | recovery stopped again and again, before any writes: in the end exactly the new branch is canonical with exact indices if and only if the last recovery started where it completes |
| `SecondCrash.StopTwice` | core/blockchain_recover.go:59-198 | a new head, a stop right behind onPutBlockEnd, a stop before any write of recovery, then recovery: the store is as after an uninterrupted write if and only if recovery does not come to that write, or at most one block had been handled and no debt entry is lost; otherwise the old block at the height of the stop stays |
| `LostDebt.StaysAfterSecond` | core/blockchain.go:711-738 | in the store of StaysAfterRecovery, a stop before anything is deleted and a second one between the two deletions: the second block is still canonical above the rival |
| `Forks.FindCommonForkAncestor` | core/blockchain.go:876-904 | the loop ends with the height up to which, and above which not, the two branches agree |
| `Forks.AlreadyPacked` | core/blockchain.go:623-652 | with an exact canonical debt index, the answer is yes exactly when some block from genesis to the parent holds the debt |
| `Forks.AcceptDebts` | core/blockchain.go:530-545 | a block passes exactly when no debt of it is on the branch of its parent |
| `Forks.DebtOncePerBranch` | core/blockchain.go:513-556 | along every branch of accepted blocks, each debt is applied once if and only if no block of the branch repeats one in its own list |
| `Forks.NewDebtsKept` | core/blockchain.go:623-652 | what AcceptDebts found when a block came stays true when further blocks are stored |
| `Forks.DebtOnceInRun` | core/blockchain.go:513-556 | in every run from genesis in which each block is accepted in the store of its time, a branch applies each debt once if and only if no block of it repeats one in its own list |
| `Forks.OneBlockPerDebt` | core/blockchain.go:623-652 | no debt is in two blocks of a branch of accepted blocks, which the debt index relies on |
| `Forks.TwiceInOneBlock` | core/blockchain.go:530-545 | a block with the debt 7 twice in its list passes the check, and its branch applies 7 twice |
| `Admission.AdmitBlock` | core/blockchain.go:291-444 | a block, new or stored before, is stored exactly when no debt of it is on the branch of its parent, and becomes the head exactly when it is better than every block before; the canonical chain is again that of the best block, with exact indices, and every stored block stays accepted |
| `Admission.ConsistentOnce` | core/blockchain.go:513-556 | in a store that blocks have entered so, the head is the best block, no two blocks of a branch hold the same debt, and a branch applies each debt once if and only if no block of it repeats one in its own list |
| `Leaves.CmpOrder` | core/block_index.go:42-56 | the comparison is positive exactly for a higher total difficulty, or the same one at a greater height, and is a total preorder |
| `Leaves.BlockLeaves.Add` | core/block_index.go:92-112 | the leaf has the new index; both heaps keep order, indices and the same leaves |
| `Leaves.BlockLeaves.Remove` | core/block_index.go:115-125 | exactly the leaf leaves both heaps |
| `Leaves.BlockLeaves.IsBestBlockIndex` | core/block_index.go:160-163 | yes exactly when the index has a higher total difficulty than every leaf, or the same one and a greater height |
| `Leaves.BlockLeaves.Purge` | core/block_index.go:166-187 | a worst leaf that is not a best one leaves exactly when the heights of a best and a worst leaf are far apart in 64-bit arithmetic |
| `Leaves.HeadChoice.Write` | core/blockchain.go:365-372 | no block written has a higher total difficulty than the head, or the same one at a greater height; the head changes exactly to a block that is strictly better so than every one before; a block can come again; the block replaces its parent among the leaves, and a new head lets a worst leaf go as Purge says |
| `Difficulty.StaysPositive` | consensus/utils/difficult.go:17-52 | from a difficulty of at least 1 the next one is at least 1 and within a tenth below and a 1024th above it, for any timestamps |
| `Difficulty.FollowsGap` | consensus/utils/difficult.go:17-52 | with a gap from 20k to below 20k + 20 seconds, in 64 bits: the parent difficulty plus 1 - k parts for k up to 100 and minus 99 parts beyond, a part being a 2048th of it and from the fork on a 1024th; after the genesis it is unchanged |
| `Difficulty.VerifiedMeans` | consensus/utils/header.go:15-29 | a header passes exactly at the next height, at no earlier time than its parent and with the difficulty that FollowsGap gives for its time |
| `Difficulty.LongerIsEasier` | consensus/utils/difficult.go:32-39 | a longer gap never gives a higher difficulty |
| `Difficulty.ChainDifficulty` | consensus/utils/header.go:15-29 | along every verified chain the difficulty stays at least 1 and the heights count up |
| `CachedStore.CachedStore.GetBlockHash` | core/store/cached_store.go:45-56 | the read equals the database read and is cached then, and the caches stay coherent |
| `CachedStore.CachedStore.GetBlockHeader` | core/store/cached_store.go:85-96 | the read equals the database read and is cached then, and the caches stay coherent |
| `CachedStore.CachedStore.GetTotalDifficulty` | core/store/cached_store.go:139-150 | the read equals the database read and is cached then, and the caches stay coherent |
| `CachedStore.CachedStore.GetBlock` | core/store/cached_store.go:180-191 | the read, with or without a body, equals the database read and is cached then, and the caches stay coherent |
| `CachedStore.CachedStore.HasBlock` | core/store/cached_store.go:194-200 | the answer equals the database answer |
| `CachedStore.CachedStore.PutBlockHash` | core/store/cached_store.go:59-66 | database and cache agree on the new entry |
| `CachedStore.CachedStore.RecoverHeightToBlockMap` | core/store/cached_store.go:170-177 | database and cache agree on the new entry, or nothing changes |
| `CachedStore.CachedStore.DeleteBlockHash` | core/store/cached_store.go:69-72 | database and cache agree that the entry is gone |
| `CachedStore.CachedStore.PutBlockHeader` | core/store/cached_store.go:100-112 | the header and its difficulty are read under the hash, a head also under its height, and nothing else changes; the caches stay coherent exactly when a block cached under the hash has this header |
| `CachedStore.CachedStore.PutBlock` | core/store/cached_store.go:154-167 | the block and its difficulty are read under the hash, a head also under its height, and nothing else changes; database and caches agree |
| `CachedStore.CachedStore.DeleteBlock` | core/store/cached_store.go:203-225 | the block is deleted exactly when its header and the canonical entry of its height are found and the database does not refuse; then header, difficulty and body are gone and nothing else; the caches stay coherent either way |
| `CachedStore.CachedStore.Evict` | core/store/cached_store.go:24-42 | dropping any cache entries at any time keeps the caches coherent |
| `StateObjects.UndoAlike` | core/state/journal.go:96-151 | reverting one entry in two databases that read alike leaves two that read alike, and the account it needs is there |
| `StateObjects.ChangeReverts` | core/state/journal.go:96-147 | an entry that restores what a change of an object replaced makes the database read as before the change |
| `StateObjects.CreateReverts` | core/state/journal.go:149-151 | reverting the creation of an account makes the database read as before it |
| `Statedb.Statedb.GetStateObject` | core/state/statedb.go:228-254 | loading an object into the cache changes nothing that can be read |
| `Statedb.Statedb.GetData` | core/state/statedb.go:143-164 | the current or the committed value; filling the storage cache changes nothing that can be read |
| `Statedb.Statedb.GetCode` | core/state/statedb.go:298-310 | the code of the account; loading it changes nothing that can be read |
| `Statedb.Statedb.SetBalance` | core/state/statedb.go:100-105 | only the balance of an existing account changes, and only to an amount that is not negative; the change can be reverted |
| `Statedb.Statedb.AddBalance` | core/state/statedb.go:108-113 | only the balance of an existing account grows by the amount |
| `Statedb.Statedb.SubBalance` | core/state/statedb.go:116-121 | only the balance of an existing account shrinks, and not at all when it would become negative |
| `Statedb.Statedb.SetNonce` | core/state/statedb.go:134-139 | only the nonce of an existing account changes |
| `Statedb.Statedb.SetCode` | core/state/statedb.go:313-329 | only code and code hash of an existing account change |
| `Statedb.Statedb.SetData` | core/state/statedb.go:167-186 | only that storage value of an existing account changes |
| `Statedb.Statedb.CreateAccount` | core/state/statedb.go:278-284 | a missing account is created empty, with empty storage; an existing one reads as before |
| `Statedb.Statedb.Suicide` | core/state/statedb.go:353-365 | an existing account loses its balance and is marked, and the result says whether it existed |
| `Statedb.Statedb.AddRefund` | core/state/statedb.go:395-398 | the counter grows modulo 2^64 |
| `Statedb.Statedb.SubRefund` | core/state/statedb.go:402-408 | the counter shrinks, or the program stops when it would go below zero |
| `Statedb.Statedb.Prepare` | core/state/statedb.go:257-270 | a transaction starts with an empty journal, no refund and the same accounts |
| `Statedb.Statedb.RevertToSnapshot` | core/state/statedb.go:378-380 | every balance, nonce, code, code hash, storage value, existence and suicide flag and the refund are as when the snapshot was taken |
| `Statedb.Statedb.RunAndRevert` | core/state/journal.go:49-63 | any nested run of operations, reads with their cache fills, snapshots and reverts is undone as a whole, and the dirty counts are again the per-account counts of journal entries |
| `Statedb.Statedb.Run` | core/state/statedb.go:373-380 | the states that the journal can go back to follow from the operations one by one: each operation changes exactly what Does says and makes an entry exactly when Journals says, and a revert leads back to its snapshot; everything up to the snapshot that the run started from is kept |
| `Statedb.NonceKept` | core/state/statedb.go:373-380 | a run in which no operation sets the nonce of an account keeps it, through all reverts |
| `Statedb.BalanceKept` | core/state/statedb.go:373-380 | a run in which no operation takes from an account leaves it at least its balance, through all reverts |
| `Statedb.RaisedCounts` | core/state/journal.go:36-41 | appending an entry keeps the dirty counts equal to the per-account counts of entries |
| `Statedb.LoweredCounts` | core/state/journal.go:49-63 | reverting the last entry keeps the dirty counts equal to the per-account counts of entries |
| `Flush.FlushStorage` | core/state/stateobject.go:227-241 | the loop leaves every dirty value readable in the trie and in the cache, whichever of them it skips, and no other account changes |
| `Flush.FlushObject` | core/state/stateobject.go:225-269 | one account is written as the dirty flags say, or removed with code and storage when it was marked; nothing of another account changes |
| `Flush.WroteReads` | core/state/stateobject.go:225-269 | a written account reads as before the write, and a newly opened database reads it the same from the trie alone |
| `Flush.UncountedSame` | core/state/journal.go:36-63 | an account without journal entries reads as when the journal was empty, whatever was changed and reverted in between |
| `Flush.Hash` | core/state/statedb.go:189-205 | accounts marked in the transaction are gone with their storage and all others read as before; a new database on the trie shows an account if and only if the journal has an entry of it, or it was shown when the journal was last emptied |
| `Flush.Transaction` | core/state/statedb.go:189-270 | from a trie that shows the whole database, through Prepare, the operations one by one and Hash: accounts marked by them are gone, all others read as after the last operation, and the new trie shows the whole database |
| `Flush.Transactions` | core/blockchain.go:582-600 | the same for every transaction of a block in turn, each from where the one before it ended: every root shows everything that can be read after its transaction |
| `Flush.Commit` | core/state/statedb.go:208-224 | whatever the journal was, a new database on the committed trie reads every account and storage value as before, except accounts marked, which are gone |
| `Flush.ForgottenByPrepare` | core/state/statedb.go:257-270 | a payment before Prepare, without Hash in between, is missing in the trie of the next Hash |
| `Svm.ProcessSystemContract` | core/svm/svm.go:178-210 | it is turned down exactly when the balance is below the amount, and leaves no trace; otherwise it fails exactly when the contract demands more gas than is left or fails itself; the contract runs its operations one by one from a state where its account exists, the sender nonce is one past the transaction and the amount has moved, and nothing else has changed; everything done since the snapshot can still be reverted |
| `Svm.Process` | core/svm/svm.go:90-135 | it is carried out exactly when fee, nonce and amount are covered, and a rejected transaction leaves nothing; it then fails exactly when the gas left over after the intrinsic part does not suffice or the contract fails. A successful one: the contract ran from the state of the call with no refund, the used gas is the whole less the smaller of the refund counter and half of it, and after the run only that fee went from sender to creator. A failed one leaves only the sender nonce and the fee between sender and creator, everything else reads as before; above the fork height the nonce is one past the transaction whenever the gas did not suffice or the contract did not set it |
| `Svm.SenderCanPay` | core/svm/svm.go:254-264 | when the gas limit covers the intrinsic gas and the contract takes nothing from the sender, the sender still has the fee at the end, as handleFee counts on |
| `Svm.HandleFee` | core/svm/svm.go:254-281 | only sender and creator change, by the fee; a fee above the balance is not subtracted but still paid out |
| `Svm.ProcessCrossShard` | core/svm/svm.go:139-175 | it succeeds exactly when amount and fee are within the balance, then only nonce, amount and fee of the sender and the part of the creator change; otherwise nothing |
| `Svm.ProcessTransfer` | core/svm/svm.go:44-80 | a cross-shard transaction is carried out exactly when balance and nonce allow it and the cross-shard fee is covered; otherwise nothing changes |
| `Svm.ApplyDebt` | core/blockchain.go:654-679 | the receiver, created when missing, gets the amount and the creator the fee; when one of them is negative only the creation remains; no other account and no storage value changes, also not of the created one |
| `Svm.ApplyReward` | core/txs/tx_reward.go:105-120 | the miner, created when missing, gets the coins and nothing else changes |
| `Svm.SentRepresents` | core/svm/svm.go:139-175 | a cross-shard transfer changes the balances of its shard as the ledger of all shards says |
| `Svm.ReceivedRepresents` | core/blockchain.go:654-679 | a debt application changes the balances of its shard as the ledger of all shards says |
| `Conservation.SendConserves` | core/svm/svm.go:139-175 | what a cross-shard transfer takes from the sender is what it gives to the creator and owes to the other shard |
| `Conservation.ApplyConserves` | core/blockchain.go:654-679 | what a debt owed is what receiver and creator get, or is lost with a missing creator account |
| `Conservation.SendShares` | core/types/transaction.go:75-82 | of the 63000 units of gas that the sender pays for, the creator of the sending block gets 21000 and the debt carries 42000; no other balance changes |
| `Conservation.ApplyShares` | core/blockchain.go:654-679 | the receiver gets the amount and the creator of the receiving block 42000 units of gas; no other balance changes |
| `Conservation.RewardConserves` | core/txs/tx_reward.go:105-120 | a reward adds exactly what it mints, to an account that is created when missing |
| `Conservation.RunConserves` | core/types/debt.go:155-211 | over every interleaving on all shards, balances plus amount and fee of unapplied debts plus lost fees minus minted coins stay the same; nothing is lost exactly when every creator that is paid a fee has an account |
| `Conservation.GenesisPlusRewards` | core/types/transaction.go:75-82 | balances and unapplied debts add up to genesis plus rewards if and only if no fee went to a missing account |
| `Shards.DoTransfer` | core/svm/svm.go:139-175 | a transfer on the state database of its shard is carried out exactly when the ledger of all shards allows it and the nonce is high enough; then it is the step of the ledger and sets the nonce, else nothing changes |
| `Shards.DoCollect` | core/blockchain.go:654-679 | a debt applied on the state database of its shard is the step of the ledger of all shards and changes no nonce |
| `Shards.RunShards` | core/svm/svm.go:139-175 | over every interleaving of rewards, cross-shard transfers and debt applications on the state databases of all shards, balances, nonces and unapplied debts end up as the events determine, and balances and unapplied debts add up to genesis plus rewards if and only if no fee went to a missing account |
| `Conservation.LossExample` | core/blockchain.go:654-679 | from a genesis: a transfer is sent and its debt applied in a block of a creator without an account, and the fee of the debt is gone |
| `Rewards.RewardsByEra` | consensus/reward.go:48-63 | the rewards below a height are those of the whole eras and of the part of the current one |
| `Rewards.RewardsBounded` | consensus/reward.go:26-63 | the rewards of a shard never exceed 24 * 3150000 * 10^8 wen, and reach it exactly from the ninth era on |
| `Htlc.WithdrawableIsOpen` | contract/system/htlc.go:235-249 | with block time that does not go back, a lock that can be withdrawn has not been refunded, although the guard does not look |
| `Htlc.HtlcContract.NewHtlc` | contract/system/htlc.go:91-120 | a lock is made exactly for a positive amount and a time lock in the future |
| `Htlc.HtlcContract.DoWithdraw` | contract/system/htlc.go:123-161 | paid exactly to the receiver with a matching preimage before the time lock of a lock not yet withdrawn; the contract has the coins |
| `Htlc.HtlcContract.DoRefund` | contract/system/htlc.go:164-192 | paid exactly to the sender from the time lock on, of a lock neither withdrawn nor refunded; the contract has the coins |
| `Htlc.HtlcContract.Close` | contract/system/htlc.go:150-190 | closing a lock pays its amount once, the subtraction is never skipped and the balance still covers the open locks |
| `Htlc.HtlcContract.Process` | core/svm/svm.go:178-210 | over every run with block time that does not go back and fresh hashes: each lock pays at most once and only when due, the balance covers the open locks, it succeeds exactly when the command is acceptable, then locks and balances are those of the command, and a failure leaves no trace |
| `Jumpdest.Set` | core/vm/analysis.go:24-26 | exactly that position is marked as well |
| `Jumpdest.Set8` | core/vm/analysis.go:27-30 | exactly those eight positions are marked as well, across two bytes |
| `Jumpdest.CodeBitmap` | core/vm/analysis.go:38-62 | no write is out of bounds, even for a push at the end, and a position is code exactly when a sequential decode starts an instruction there |
| `Jumpdest.NextInstruction` | core/vm/analysis.go:38-62 | the opcodes 0x60 to 0x7f are followed by 1 to 32 bytes where no instruction starts, then by the next instruction; any other opcode is followed by it at once |
| `Jumpdest.Contract.ValidJumpdest` | core/vm/contract.go:84-115 | valid exactly for a JUMPDEST byte where an instruction starts, whichever analyses are cached |
| `AbiWords.WordBack` | accounts/abi/unpack.go:38-116 | a packed word reads back as the value, a big integer modulo 2^256 with its sign |
| `AbiWords.NormIsSame` | accounts/abi/unpack.go:38-72 | a value comes back unchanged exactly when a big integer is within 256 bits, signed ones with their sign |
| `AbiWords.FromBigEndian` | accounts/abi/pack.go:69-81 | reading big-endian bytes gives the number modulo their width |
| `AbiCalls.PackOne` | accounts/abi/type.go:178-203 | the packing of one value, with the loop over the elements of slices and arrays |
| `AbiCalls.Pack` | accounts/abi/argument.go:233-278 | an error exactly when count or types do not match; otherwise bytes that are laid out as the contract ABI says (LaidOut), which EncodeLaid and LaidIsEncode show to be exactly one byte string |
| `AbiCalls.ForEachUnpack` | accounts/abi/unpack.go:130-171 | the list of the words from the start on, or an error when they are not all there |
| `AbiCalls.ToGoType` | accounts/abi/unpack.go:175-252 | the value at an index, through its offset and length for dynamic types |
| `AbiCalls.UnpackValues` | accounts/abi/argument.go:200-224 | for any bytes: the values that the bytes mean (ArgumentsMean), each argument at its head with arrays counted as further arguments, and an error exactly when they mean none |
| `AbiLayout.EncodeLaid` | accounts/abi/argument.go:233-278 | read big-endian, an integer is its number modulo 2^256, a boolean 1 or 0 and an address the number of its 20 bytes; fixed bytes and functions stand in front with zeros behind; the head of a string, bytes or a slice is the position of its length, which the contents and the zeros that fill the last word follow; tails come one after the other behind the heads |
| `AbiLayout.LaidIsEncode` | accounts/abi/argument.go:233-278 | no other bytes are laid out so |
| `AbiLayout.LeadingByte` | accounts/abi/pack.go:69-81 | the first byte of a number counts most |
| `AbiReads.WordMeans` | accounts/abi/unpack.go:38-116 | any word: integers are read from their low bits in the range of their width, a boolean only from 0 and 1, an address from the last 20 bytes, fixed bytes from the first, a function only with zeros behind |
| `AbiReads.DecodeMeans` | accounts/abi/unpack.go:130-252 | any bytes are unpacked exactly to the values that they mean: a length may not exceed what follows it, in bytes, and a list needs a word for each element |
| `AbiReads.Repacks` | accounts/abi/argument.go:200-278 | whatever is unpacked from any bytes can be packed, and then unpacks to the same if and only if no empty fixed array stands at the very end |
| `Abi.RoundTrip` | accounts/abi/argument.go:200-278 | for every well-typed list of the supported types, unpacking what was packed gives the values back, big integers modulo 2^256, if and only if no empty fixed array stands at the very end; otherwise it fails |
| `Abi.RoundTripExact` | accounts/abi/argument.go:200-278 | the list comes back as it was if and only if every big integer fits into 256 bits, signed ones with their sign, and no empty fixed array stands at the very end |
| `Abi.EmptyArrayFails` | accounts/abi/unpack.go:175-178 | an empty fixed array on its own packs to nothing and then cannot be unpacked; before another argument it can |
| `Abi.RoomAt` | accounts/abi/unpack.go:175-178 | there is a word to read at the head of an argument exactly when that head, a later one or any tail takes room |
| `Abi.TooLargeChanges` | accounts/abi/unpack.go:38-72 | the number 2^256 comes back as 0 |

## Left out

- TrieCanonical.DeletePrefixMeans: the boolean result of DeletePrefix is only stated to be false when nothing was removed and it is false; an emptied branch can stay in place, so no exact meaning is claimed.
- TrieNodes.Trie.DeleteNode: does not model a database load that fails in the middle of a deletion; loads of stored nodes succeed.
- TrieProof.VerifyProof: absence proofs are not covered; a key that is not found proves nothing.
- TrieNodes.Trie.GetProof: hashes the whole trie before the walk, where the source hashes each collected node after it; the proof map is the same.
- The shape of a trie after deletions: equal maps then need not have equal roots, so only the map is claimed.
- Heap.Heap.Remove: the heap index of an item is kept in a map of the heap, not in a field of the item.
- Pool.Pool.AddObject: does not model the lock and other threads between validation and insertion.
- The timed re-adding of pool objects (loopCheckingPool): it can file two objects under one account and nonce.
- Miner.ChooseDebts: does not model the early return when a header is missing; the debts chosen so far are then kept.
- Reorg.Store.CrashAndRecover: a crash before onPutBlockEnd is not covered.
- Asynchronous purging of old branches (purgeBlock): only the removal of the worst leaf is modelled.
- Leaves.BlockLeaves.Purge: the deletion of blocks that follows in the background is not modelled.
- CachedStore.CachedStore.PutBlock: DeleteBlockHeader, which leaves the block cache alone, is not modelled; neither are the indices that the store keeps beside the caches.
- Statedb.Statedb.RunAndRevert: logs are not journaled in the source and not modelled.
- Flush.Hash: works on the values of the database and goes on with a new one, where the source changes its trie in place; errors of the trie are not modelled. That the hash of code is never empty is asked of the hash function, and different addresses are taken to have different hashes.
- Flush.Commit: the journal, which Commit leaves as it is, is not followed on; a revert after it is not modelled.
- Admission.AdmitBlock: that no transaction is on a branch twice, which the nonce check of a block gives, is a hypothesis (`TxsOnce`).
- Svm.Process: gas estimates, EVM contracts and the state root in the receipt are not modelled; where a contract sets the nonce of the sender itself, the nonce left is stated from the one it had set.
- Conservation.RunConserves: fees of transactions within a shard, and system contracts that run out of gas, are not part of the ledger.
- Rewards.RewardsBounded: the floating-point table of the source is written in whole numbers; its entries are exact.
- Htlc.HtlcContract.Process: does not model the gas and nonce checks of svm.go that come before the contract, which can also turn a transaction down; JSON decoding is a command that is malformed or not; the fee is paid by PayFee.
- Abi.RoundTrip: nested arrays, slices of arrays, arrays of dynamic types and reflection into structs are not covered.
- AbiCalls.Pack: types are checked before packing starts, not argument by argument; the result is the same.
- RLP, JSON, Keccak, ECDSA, LevelDB and LRU internals: functions, maps and arbitrary evictions.
- EVM execution, consensus message exchange, the downloader, the light client, rpc, p2p, node, api, cmd, metrics, log and keystore: I/O, network and wrappers.
