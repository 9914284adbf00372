# Verified model of the saiya core

A Dafny model of six parts of the repository and proofs of what they promise. `dafny verify dfyconfig.toml` checks all of it.

- **State trie** (`Mpt*.dfy`, `StateRoot.dfy`). A node stands for the tree that is left when every hash node is resolved, and the tree stands for a map from nibble paths to values. Updates one by one and in batches, reference counting, flushing, collapsing, garbage collection by block index, proofs over an arbitrary hash function, prefix search and node-by-node restoring are proved against these meanings. In the trie and the billet a hash is ideal (injective); the proof module instead names the collisions it excludes.
- **dBFT** (`Dbft*.dfy`). `Dbft.dfy` has a node with all handlers, proved against functions on values (`DbftSteps.dfy`) that say what each event makes of its state and what it broadcasts, over a log of what it prepared, signed, was told and decided. The invariant of every handler is in `DbftState.dfy`; `DbftSafety.dfy` proves safety for runs of any number of validators of which at most F are faulty and say anything; `DbftNetwork.dfy` makes any number of nodes, has them handle any list of events and shows that each event leads its node where it should and that this is such a run; `DbftRecovery.dfy` proves what recovery messages are for; `DbftLimits.dfy` holds runs that end where the code does less than it means to. Messages in the name of an honest node are ones it sent, in recovery messages too, and all nodes extend the same chain. A node that starts a height anew, because its block did not get into the chain, or leaves a view in which it has signed, is followed up to that point; the rest of the network goes on, and that node counts as faulty.
- **Storage layers** (`Storage.dfy`, `Seek.dfy`, `SeekCursor.dfy`, `MemStore.dfy`). A stack of change sets over a store behaves like one plain map for reads, writes, ordered seeks and while it is persisted.
- **Transaction state** (`AccessList.dfy`, `StateDb.dfy`). Snapshots behave like a stack of plain states that are copied.
- **Virtual machine** (`VmAnalysis.dfy`, `VmGas.dfy`, `VmSstore.dfy`, `VmRun.dfy`). Jump destinations, call and memory gas, storage refunds, nested frames over the transaction state, and whole transactions. Instructions are arbitrary inputs of which only gas, stores, other operations and calls matter.
- **Memory pool** (`Mempool.dfy`).

What was found where the code does not do what it should or says it does:

- The commit lock of dBFT does not hold when a proposal is rejected late. A node that asks for recovery fills in transactions from its pool without checking the block and without clearing the list of missing ones; it can then commit, and a late transaction makes it check the block and ask for the next view. `DbftLimits.LockCanBeLost` runs a node into this; `DbftSteps.TransactionExactly` gives the exact condition.
- A decided block need not have a valid witness. `updateExistingPayloads` (pkg/dbft/dbft.go:387-397) means to check stored commits when the request comes, but runs before the request is stored, so none is checked there, and `checkCommit` counts them. `DbftLimits.UncertifiedDecision` runs a node into such a decision; `DbftSteps.DecidedExactly` says exactly when the witness is valid: when the commits in it that were stored before the request sign the header. The chain refuses a block without a valid witness, and then the same height starts anew with nothing stored, the own commit included. `DbftSafety.DecidedAgree` holds for all blocks with valid witnesses.
- A primary can sign on preparations for another request. Responses that it stored before it sent its own request stay (pkg/dbft/send.go:30-43 does not drop them, as pkg/dbft/dbft.go:378-385 does at a backup) and are counted. `DbftLimits.StaleSignature` runs a node into this; `DbftState.StaleExact` gives the exact condition. Safety does not depend on it, as the commits are what is certified.
- A recovery message does not help a node of an earlier view. It carries the change views that are kept when a view is entered, and these are the ones that asked for views below it (pkg/dbft/context.go:186-194), so none of those that led there (`DbftRecovery.RecoveryAsksForLess`, `DbftRecovery.RecoveryLeavesBehind`; what other change views would do is `DbftRecovery.AskedTogether`). In its own view it does what it is for (`DbftRecovery.RecoveryDecides`, `DbftRecovery.RecoveryCompletes`).
- Messages for later heights and views are put into a cache that is read only by `start`, which runs only with a fresh cache (pkg/dbft/dbft.go:79-83, 263-283). So they are lost, and a node that gets one stays as it was but for its log: `Dbft.DBFT.OnReceive`, in the clause for messages that it does not handle (`!Handles`).
- A traversal of the trie gives the value of a branch after its children. So the results of `Find` are sorted if and only if no key in them is a prefix of another (`MptFind.AscendingExactly`; `MptFind.SortedExactly` says it of the contents that are searched), and a search that goes on after the last key of a page skips the keys which that key extends and repeats those that extend it (`MptFind.PagingExactly`, with `MptFind.ShorterKeyLast` for an example).
- A batch is not checked for the limits that single changes are checked for and that decoding enforces: `MptTheorems.LongValueIsLost`, and `MptTheorems.UpdateFits` for all other contents.
- A node restored into a store that has it as an inactive item has the block index there incremented instead of a count, and cannot be read afterwards (`MptBillet.RestoreAll` says exactly when; `MptLimits.InactiveIsLost` puts, flushes, deletes, flushes and restores a value that is then lost, and `MptLimits.RestoredExactly` says which tries are lost over the store of a later one). `Billet.RestoreHashNode` has no caller in the repository, only its definition (pkg/core/mpt/billet.go:54-76), so whether a store in use meets this is open.
- A built-in native contract is not told that it is called statically (pkg/vm/evm.go:380-383), so only slots and counter are sure to stay in a read-only frame, as `VmRun.Enter` says, not the items that such contracts keep.
- A clone of the transaction state takes the refund counter through a signed 64-bit integer. `StateDb.CloneFits` gives the exact condition, and `VmRun.Transact` shows that within a transaction the counter always meets it when 199 times the gas used fits.

## Model

| member | source | states |
|---|---|---|
| MptTree.CanonicalUnique | pkg/core/mpt/doc.go:32-38 | two canonical trees that denote the same map are equal, so a set of key-value pairs has one root whatever the history |
| MptTree.NibblesRoundTrip | pkg/core/mpt/helpers.go:37-64 | splitting bytes into nibbles and joining them are inverse, for every key and every path of even length |
| MptKeys.FirstNibbles | pkg/core/mpt/helpers.go:37-44 | a byte makes two nibbles, the high half first |
| MptKeys.NibbleOrder | pkg/core/mpt/helpers.go:37-44 | paths are in the order of nibbles exactly as their keys are in the order of bytes, and one path starts with another exactly as their keys do |
| MptTheorems.SameContentsSameRoot | pkg/core/mpt/doc.go:37-39 | two nodes with canonical expansions and the same contents have the same root hash, however they are compressed |
| MptTheorems.FoldIsUpdate | pkg/core/mpt/batch.go:34-40 | putting and deleting the entries of a batch one after the other denotes the batch applied to the map |
| MptTheorems.BatchIsFold | pkg/core/mpt/batch.go:41-52 | a batch update gives the same tree, hence the same root, and the same reference change of every node as the puts and deletes one by one |
| MptTheorems.Step | pkg/core/mpt/trie.go:142-161 | one operation of any kind keeps the trie valid and changes the contents by exactly its own changes |
| MptTheorems.Run | pkg/core/mpt/trie.go:405-431 | over any run of put, delete, get, batch, flush and collapse the contents are the changes in order, and after a flush every stored count is the number of positions of its node and every node can be read; when the batches are within the limits for keys and values, every node can be decoded |
| MptTheorems.UpdateFits | pkg/core/mpt/trie.go:142-161 | contents within the limits for keys and values stay so under changes that are, and then every node can be decoded |
| MptTheorems.LongValueIsLost | pkg/core/mpt/batch.go:41-52 | a batch is not checked: a value over the limit gets into the trie, and its leaf cannot be decoded |
| MptTheorems.ProveAndVerify | pkg/core/mpt/proof.go:15-79 | a proof made by a trie and checked against its root gives exactly the value of the key; there is no proof for a key without one |
| MptTrie.Trie.Get | pkg/core/mpt/trie.go:78-89 | returns the value that the tree denotes for the key, or the error for a long or absent key; the tree stays the same |
| MptTrie.Trie.GetWithPath | pkg/core/mpt/trie.go:97-139 | strict: finds the leaf of the path if and only if there is one; not strict: finds the node that holds everything below the path, or there is nothing below it |
| MptTrie.Trie.Put | pkg/core/mpt/trie.go:142-161 | map update with the error cases of the source; the result is canonical and the pending references move by the difference of the two trees |
| MptTrie.Trie.PutIntoLeaf | pkg/core/mpt/trie.go:165-178 | a put at a leaf replaces it or splits it into a branch |
| MptTrie.Trie.PutIntoBranch | pkg/core/mpt/trie.go:182-193 | a put into a branch changes one child only |
| MptTrie.Trie.PutIntoExtension | pkg/core/mpt/trie.go:197-230 | a put into an extension goes below it or splits it |
| MptTrie.Trie.PutIntoNode | pkg/core/mpt/trie.go:261-276 | a put into any node, hash nodes included, is a map update |
| MptTrie.Trie.NewSubTrie | pkg/core/mpt/trie.go:247-257 | a value below a path becomes a leaf, under an extension when the path is not empty |
| MptTrie.Trie.Delete | pkg/core/mpt/trie.go:280-291 | map removal, absent keys included; the result is canonical again |
| MptTrie.Trie.DeleteFromBranch | pkg/core/mpt/trie.go:293-337 | after a removal a branch with one child left is replaced by that child, merged with its key, even when the child is a hash node |
| MptTrie.Trie.DeleteFromExtension | pkg/core/mpt/trie.go:339-365 | after a removal below an extension the keys are merged or the extension goes |
| MptTrie.Trie.DeleteFromNode | pkg/core/mpt/trie.go:369-392 | a removal from any node, hash nodes included |
| MptTrie.Trie.StateRoot | pkg/core/mpt/trie.go:395-400 | the hash of the whole tree, None for the empty one |
| MptTrie.Trie.Flush | pkg/core/mpt/trie.go:405-431 | the store becomes the one for the new tree: counts are positions, unreferenced nodes are removed or deactivated with the block index |
| MptTrie.Trie.UpdateRefCount | pkg/core/mpt/trie.go:446-482 | writes, updates, removes or deactivates one stored node; the negative count that the source panics on cannot occur |
| MptTrie.Trie.AddRef | pkg/core/mpt/trie.go:484-497 | one more pending reference to this node and no other change |
| MptTrie.Trie.RemoveRef | pkg/core/mpt/trie.go:499-512 | one pending reference less to this node and no other change |
| MptTrie.Trie.GetFromStore | pkg/core/mpt/trie.go:514-538 | a node of the current tree is found in the store, and reading it changes no pending count |
| MptTrie.Trie.Collapse | pkg/core/mpt/trie.go:543-549 | compressing leaves the tree unchanged, and every path open exactly as far as it was, up to the depth |
| MptTrie.Trie.CollapseNode | pkg/core/mpt/trie.go:551-573 | the recursion of collapse |
| MptStore.FlushedStoreMatches | pkg/core/mpt/trie.go:405-431 | a flush from the old to the new tree turns a store that matches the old into one that matches the new |
| MptStore.FlushStep | pkg/core/mpt/trie.go:410-431 | flushing one table entry makes progress whatever the order of the map iteration |
| MptStore.MatchingStoreCovers | pkg/core/mpt/trie.go:437-443 | when counts are positions every node of the tree is in the store, so reading never fails |
| MptStore.CoveredIffAvail | pkg/core/mpt/trie.go:514-538 | a tree can be read completely if and only if every tree at one of its positions is stored |
| MptUpdate.LeafSplit | pkg/core/mpt/trie.go:165-178 | the branch that replaces a leaf denotes both values |
| MptUpdate.ExtSplit | pkg/core/mpt/trie.go:197-230 | the nodes that replace a split extension denote the old contents with the new value |
| MptUpdate.MergeCorrect | pkg/core/mpt/batch.go:80-104 | putting a prefix before a node, merging it with an extension key, moves its contents below the prefix and keeps canonical form |
| MptUpdate.StripCorrect | pkg/core/mpt/batch.go:181-202 | replacing a branch by its only child keeps the contents |
| MptTrie.Trie.PutBatch | pkg/core/mpt/batch.go:41-52 | a sorted batch of puts and deletes, applied at once, denotes the changes one by one; canonical form and references as for single updates |
| MptTrie.Trie.PutBatchIntoNode | pkg/core/mpt/batch.go:54-69 | the batch on any node |
| MptTrie.Trie.MergeExtension | pkg/core/mpt/batch.go:80-104 | the prefix is put before what a batch left over, with references |
| MptTrie.Trie.PutBatchIntoExtension | pkg/core/mpt/batch.go:106-130 | the batch goes below the extension when all keys do, otherwise the extension is split |
| MptTrie.Trie.PutBatchIntoExtensionNoPrefix | pkg/core/mpt/batch.go:132-140 | an extension that is split becomes a branch before the batch is applied |
| MptTrie.Trie.AddToBranch | pkg/core/mpt/batch.go:148-177 | applies the batch child by child and then strips the branch |
| MptTrie.Trie.StripBranch | pkg/core/mpt/batch.go:181-202 | a branch with no child goes, one with one child is replaced by it |
| MptTrie.Trie.IterateBatch | pkg/core/mpt/batch.go:204-219 | groups a sorted batch by first nibble and hands every group to its child, once each |
| MptTrie.Trie.NewSubTrieMany | pkg/core/mpt/batch.go:241-269 | builds the tree for a batch that meets nothing, or a single value |
| MptTrie.GetLastIndex | pkg/core/mpt/batch.go:277-288 | the longest start of the batch with the same first nibble |
| MptTrie.Lcp | pkg/core/mpt/helpers.go:7-20 | the longest common prefix of two paths |
| MptTrie.LcpMany | pkg/core/mpt/helpers.go:22-34 | the longest common prefix of all keys of a batch |
| MptBatch.StripSorted | pkg/core/mpt/batch.go:271-275 | keys with a common prefix stay sorted when it is cut off |
| MptBatch.BranchUpdate | pkg/core/mpt/batch.go:148-177 | updating one child by its group updates the branch by the group and nothing else |
| MptTrie.Trie.GetProof | pkg/core/mpt/proof.go:15-63 | returns the encodings of exactly the nodes from the root to the leaf of the key, or the error |
| MptEncoding.EncodingRoundTrip | pkg/core/mpt/base.go:79-121 | decoding the encoding of a node gives the node with its children by hash, for every hash function, and fails exactly for a node with a key or value over the limit |
| MptEncoding.WithinIsBounded | pkg/core/mpt/extension.go:15-20 | no node of a canonical tree is over the limits when the keys and values stored in it are within them |
| MptEncoding.KidsRoundTrip | pkg/core/mpt/branch.go:60-73 | the children of a branch are read back as written |
| MptEncoding.VarUintRoundTrip | pkg/io/binaryWriter.go:108-131 | variable-length integers of up to 64 bits are read back as written, with what follows them |
| MptEncoding.VarBytesRoundTrip | pkg/io/binaryWriter.go:139-142 | length-prefixed byte strings are read back as written up to the limit, and refused beyond it |
| MptEncoding.NodeBytes | pkg/core/mpt/base.go:78-92 | the encoding of each kind of node in bytes: its type and its parts in order, with children as 4 when empty and else 3 and the hash |
| MptEncoding.VarUintBytes | pkg/io/binaryWriter.go:108-128 | the encoding of lengths in bytes: one, or a mark and two, four or eight, the lowest first |
| MptProof.VerifyProof | pkg/core/mpt/proof.go:67-79 | accepts only what the decoded walk through the byte lists accepts |
| MptProof.ProofSound | pkg/core/mpt/proof.go:67-79 | for any byte lists that do not collide with the nodes of the trie, an accepted value is the value of the trie for the key |
| MptProof.ProofComplete | pkg/core/mpt/proof.go:15-27 | the encodings on the path to a stored key are accepted with its value |
| MptProof.AcceptedExactly | pkg/core/mpt/proof.go:67-79 | a proof is accepted for a value if and only if the trie has it for the key and every node on the path is given; reading as many nodes as the path has is enough to find out |
| MptProof.NeverPanics | pkg/core/mpt/trie.go:514-538 | whatever the byte lists, unless one collides with a node of the trie, a search below its root never meets the encoding of an empty node, on which the source panics |
| MptProof.WalkFollowsTree | pkg/core/mpt/trie.go:97-139 | a walk over hashed byte lists that ends in a value follows the tree with that root hash |
| MptFind.Find | pkg/core/mpt/trie.go:578-634 | returns the first entries, up to the given number, of all that are below the prefix and strictly after the start, in the order of the traversal; said of the keys, these are all that have the prefix and whose rest comes after the start in the order of bytes; each error exactly in its case; the result is sorted, by paths and by the bytes of the keys, if and only if no key in it is a prefix of another, and always when none of the keys that are searched for is |
| MptFind.SearchExact | pkg/core/mpt/trie.go:588-612 | the adjusted start makes the traversal meet an entry if and only if it is below the prefix and after the given start |
| MptFind.Finder.Traverse | pkg/core/mpt/billet.go:216-288 | the search collects what the traversal meets, in order, and stops as soon as there are enough |
| MptFind.Finder.TraverseKids | pkg/core/mpt/billet.go:248-267 | the children of a branch one after the other, with the stop |
| MptFind.VisitHas | pkg/core/mpt/billet.go:216-288 | a traversal from a start path meets an entry if and only if it is there and not before the start |
| MptFind.VisitOrdered | pkg/core/mpt/billet.go:248-267 | a traversal meets a longer path before the one that it extends and all others by nibbles, and so none twice |
| MptFind.AscendingExactly | pkg/core/mpt/trie.go:578-634 | entries in the order of a traversal are sorted by key if and only if no key is a prefix of another |
| MptFind.SortedExactly | pkg/core/mpt/trie.go:578-634 | the listing of all that is searched for is sorted if and only if none of these keys is a prefix of another, and then every page is |
| MptFind.PagingExactly | pkg/core/mpt/trie.go:575-577 | going on after the last key of a page skips exactly the later entries which that key extends, and repeats exactly the earlier ones that extend it |
| MptFind.ShorterKeyLast | pkg/core/mpt/billet.go:248-267 | a branch with a value and one child: the longer key comes first, and a search that goes on after it does not find the shorter one |
| MptFind.ListingUnique | pkg/core/mpt/trie.go:578-634 | what is wanted and the order of the traversal determine the list of entries |
| MptFind.StartFromIs | pkg/core/mpt/trie.go:594-612 | the start that is left below the node orders entries as the whole start does |
| MptFind.FoundKey | pkg/core/mpt/trie.go:618-626 | the key that is returned is the byte string whose path was found |
| MptFind.KeysListed | pkg/core/mpt/trie.go:618-626 | the entries found are those of exactly the keys with the prefix whose rest comes after the start in the order of bytes |
| MptFind.AscendingKeys | pkg/core/mpt/trie.go:618-626 | entries are sorted by path exactly if the keys are sorted by bytes |
| MptBillet.RestoreAll | pkg/core/mpt/billet.go:12-22 | over any store, restoring every node once, parents first, never fails; at the end the root is collapsed, every node has a reference more for each of its positions unless the store had it as an inactive item, the temporary storage holds exactly the contents, and the trie can be read if and only if there was no such item |
| MptLimits.DroppedExactly | pkg/core/mpt/trie.go:446-482 | the nodes that a flush leaves as inactive items are exactly those that the trie had and has no more |
| MptLimits.RestoredExactly | pkg/core/mpt/billet.go:179-201 | a trie that is restored over the store of a later one can be read if and only if the later one still has all its nodes |
| MptLimits.InactiveIsLost | pkg/core/mpt/billet.go:179-201 | a value that was put, flushed, deleted and flushed is restored without an error and with a complete billet, and cannot be read |
| MptBillet.Billet.RestoreHashNode | pkg/core/mpt/billet.go:54-76 | whatever is offered, an error changes nothing and the root hash stays; a node that is due is taken and the billet becomes the one for the larger set |
| MptBillet.Billet.PutIntoNode | pkg/core/mpt/billet.go:80-177 | puts a node in its place or fails; the tree stands as it was |
| MptBillet.Billet.PutIntoBranch | pkg/core/mpt/billet.go:109-122 | one child is replaced, and the branch is collapsed when all children are |
| MptBillet.Billet.IncrementRefAndStore | pkg/core/mpt/billet.go:179-201 | the count of this node goes up by one and that of no other node changes; an item that is inactive stays so |
| MptBillet.ClosedStep | pkg/core/mpt/billet.go:17-22 | what is restored stays closed under parents |
| MptBillet.CountStep | pkg/core/mpt/billet.go:179-201 | a restore adds one to the count of its node and to no other |
| MptBillet.CountDone | pkg/core/mpt/billet.go:179-201 | when everything is restored each node is counted at every position that it has |
| MptBillet.DueBranchDone | pkg/core/mpt/billet.go:306-324 | a branch is collapsed exactly when all below it is restored |
| MptBillet.DueExtDone | pkg/core/mpt/billet.go:297-304 | an extension is collapsed exactly when all below it is restored |
| MptBillet.TempDone | pkg/core/mpt/billet.go:67-74 | the temporary storage is the contents of the trie once all leaves are restored |
| StateRoot.Module.AddMPTBatch | pkg/core/stateroot/module.go:209-222 | the trie is updated by the changes of the block, flushed, and its root recorded; every root since the last collection stays readable, and the nodes that the block drops are marked with its index |
| StateRoot.Module.GC | pkg/core/stateroot/module.go:174-206 | removes exactly the items that became inactive up to the index; every root of that height or later stays readable |
| StateRoot.Module.GetState | pkg/core/stateroot/module.go:72-76 | reads under any recorded root since the last collection what the trie held then |
| StateRoot.SeekGC | pkg/core/stateroot/module.go:181-194 | keeps every item but the inactive ones up to the index |
| StateRoot.CollectedReadable | pkg/core/stateroot/module.go:174-206 | collection takes nothing from roots of the index or later |
| StateRoot.FlushStamps | pkg/core/mpt/trie.go:446-482 | an item that a flush deactivates is in no root of this block or later |
| DbftTypes.GetPrimaryIndex | pkg/dbft/context.go:83-90 | the truncated remainder with its correction is the remainder that is never negative |
| DbftTypes.F | pkg/dbft/context.go:76-80 | the largest number of which three times as many are fewer than all |
| Dbft.DBFT.CountCommitted | pkg/dbft/context.go:104-112 | counts the validators whose commit is stored |
| Dbft.DBFT.CountFailed | pkg/dbft/context.go:116-124 | counts the validators not heard from at this height and view |
| DbftState.LostExactly | pkg/dbft/dbft.go:224-241 | no validator is recorded at a later height, so one counts as failed exactly when it is not recorded at this height and in this view or a later one |
| DbftState.LostIsUnheard | pkg/dbft/dbft.go:235-241 | over any run a validator counts as failed exactly when no message of this height, of this view or a later one, was handled that came from it |
| DbftState.SaidIsSent | pkg/dbft/send.go:45-127 | over any run everything that a node has prepared or signed it has also broadcast |
| Dbft.DBFT.InitializeConsensus | pkg/dbft/dbft.go:86-135 | starts the height after the chain or a later view with nothing stored; the invariant is lost exactly by a node that has spoken at a height and starts it anew, or that has signed and enters a later view |
| DbftState.ClearedExactly | pkg/dbft/context.go:172-218 | a fresh view is sound if and only if the node has not spoken there |
| Dbft.DBFT.KeepChangeViews | pkg/dbft/context.go:172-190 | keeps the change views below the new view for recovery messages |
| Dbft.DBFT.MakeHeader | pkg/dbft/context.go:274-283 | the header of the stored request, None before it is stored |
| Dbft.DBFT.Fill | pkg/dbft/context.go:221-245 | the proposal takes the transactions of the pool and a later timestamp |
| Dbft.DBFT.SendPrepareRequest | pkg/dbft/send.go:30-43 | the primary prepares the proposal that pool, clock and nonce call for, and then does what the preparations in hand allow |
| Dbft.DBFT.Prepare | pkg/dbft/send.go:93-107 | stores, sends and records the own preparation, once in the view, and keeps the invariant |
| Dbft.DBFT.MakeCommit | pkg/dbft/send.go:109-127 | the stored commit if there is one, else a signature of the header of the request |
| Dbft.DBFT.SendCommit | pkg/dbft/send.go:129-134 | after it the node holds a commit: the one it had, or its signature of the header on the preparations in hand; one header per height |
| Dbft.DBFT.SendChangeView | pkg/dbft/send.go:57-91 | broadcasts exactly a request for the next view, or for recovery when more than F are missing; enters the next view exactly if no more than F are missing and a quorum asks; a commit that was sent is lost then |
| Dbft.DBFT.SendRecoveryMessage | pkg/dbft/send.go:147-179 | broadcasts the stored preparations and change views, and the commits once it has committed, and nothing else |
| Dbft.DBFT.CheckPrepare | pkg/dbft/check.go:8-38 | signs if and only if all transactions, the request and M preparations are there, and nothing changes otherwise |
| Dbft.DBFT.CheckCommit | pkg/dbft/check.go:40-77 | decides a block if and only if M commits of this view and all transactions are there; the next height is started if the chain has the block then, otherwise this one anew |
| DbftSteps.DecidedExactly | pkg/dbft/check.go:40-77 | a decided block has a valid witness if and only if the commits in it that were stored before the request, unchecked, sign its header; the height is left if and only if the chain takes the block or has it already |
| DbftState.EarlyGoodCertified | pkg/dbft/dbft.go:377-398 | when every commit of the view that was stored before the request signs its header, the block has a valid witness |
| DbftState.CertifiedExactly | pkg/dbft/dbft.go:479-506 | commits that come after the request are checked, so only earlier ones can spoil the witness |
| DbftLimits.UncertifiedDecision | pkg/dbft/dbft.go:479-486 | events from the start of a node that make it decide a block on one valid commit and two for another header, and start the height anew |
| Dbft.DBFT.GetBlockWitness | pkg/consensus/consensus.go:525-546 | collects the first M commits of the view, in the order of the validators |
| Dbft.DBFT.ProcessBlock | pkg/consensus/consensus.go:504-516 | records the block with its witness; the chain takes one with a valid witness only |
| Dbft.DBFT.CheckChangeView | pkg/dbft/check.go:79-104 | enters a later view if and only if M validators ask for it or for one beyond; otherwise nothing changes |
| Dbft.DBFT.OnPrepareRequest | pkg/dbft/dbft.go:285-335 | stores the first request of the primary of this view that verifies; when all its transactions are at hand and it is accepted a validator prepares it, and signs as soon as it can |
| DbftSteps.RequestExactly | pkg/dbft/dbft.go:285-335 | a request is answered, with one preparation, if and only if it is the first one of the primary of this view, verifies, is complete and accepted, and the node is a validator; only then can the node sign, and only this request |
| Dbft.DBFT.UpdateExistingPayloads | pkg/dbft/dbft.go:377-398 | drops exactly the responses to another request; the stored commits are not checked, as the request is not stored yet |
| Dbft.DBFT.ProcessMissingTx | pkg/dbft/dbft.go:337-357 | takes what the pool knows; the list of missing transactions is replaced only if some are missing |
| Dbft.DBFT.CreateAndCheckBlock | pkg/dbft/dbft.go:363-375 | accepts what both callbacks accept, otherwise asks for the next view |
| Dbft.DBFT.OnPrepareResponse | pkg/dbft/dbft.go:400-446 | stores a response exactly when its slot is free and it fits the request, if that is there, and signs as soon as it can |
| DbftSteps.ResponseExactly | pkg/dbft/dbft.go:400-446 | a response is stored if and only if its slot is free and it fits the request, and only with it can the node sign or decide |
| Dbft.DBFT.OnChangeView | pkg/dbft/dbft.go:448-477 | a view is entered if and only if it is asked for by M validators, this one not asking for less than before, and nothing was signed |
| Dbft.DBFT.OnCommit | pkg/dbft/dbft.go:479-506 | a commit is checked against the header only when that is there; a block is decided if and only if the request, all transactions and M commits of this view are there |
| Dbft.DBFT.OnRecoveryRequest | pkg/dbft/dbft.go:508-528 | answers if it has committed or is one of the F validators after the sender |
| Dbft.DBFT.Dispatch | pkg/dbft/dbft.go:241-258 | hands the message to the handler of its type, with the state that this handler leaves; invariant and lock are kept |
| Dbft.DBFT.OnRecoveryMessage | pkg/dbft/dbft.go:530-588 | nothing after a commit when the message is of a later view; otherwise first its change views, and then, in whatever view these leave the node, its other parts; exact up to a relapse; invariant and lock are kept |
| Dbft.DBFT.RecoverView | pkg/dbft/dbft.go:564-588 | of the own view the request if it is missing and then the responses, unless the node is leaving the view or has committed, and then the commits of this view or an earlier one |
| Dbft.DBFT.Replay | pkg/dbft/dbft.go:530-588 | handles the parts in order, each as if it had been received, until the node relapses |
| DbftRecovery.RecoveryDecides | pkg/dbft/dbft.go:530-588 | a node with the proposal of its view and its transactions that gets a recovery message of this view decides the block, if the valid commits in it and those that the node has come from M validators, whether it has committed, is leaving its view or not |
| DbftRecovery.RecoveryCompletes | pkg/dbft/dbft.go:564-588 | a node without the proposal decides as well, if the message holds a request that it accepts and whose transactions it knows |
| DbftRecovery.CommitsDecide | pkg/dbft/dbft.go:581-587 | replaying valid commits of M validators, together with those that are stored, ends in a decision |
| DbftRecovery.ResponsesStay | pkg/dbft/dbft.go:575-578 | replaying responses decides, or leaves the node with its proposal and all its commits |
| DbftRecovery.RecoveryAsksForLess | pkg/dbft/context.go:186-194 | the recovery message of a node holds change views for earlier views than its own only |
| DbftRecovery.RecoveryLeavesBehind | pkg/dbft/dbft.go:553-588 | so it brings no node of an earlier view to its view, and makes it prepare, sign and decide nothing |
| DbftRecovery.AskedTogether | pkg/dbft/dbft.go:553-562 | change views of M validators for one view, in any recovery message, bring a node there that has not signed |
| Dbft.DBFT.OnTransaction | pkg/dbft/dbft.go:138-167 | does what the last missing transaction calls for; the log stays sound and the invariant holds unless the node relapses, which it does exactly if the lock is lost or a decided block does not get into the chain |
| DbftSteps.TransactionExactly | pkg/dbft/dbft.go:61-76 | a transaction makes a node forget its commit if and only if it is the last one missing, the node has committed, the block is rejected and a quorum asks for the next view; the last one of an accepted proposal makes a backup prepare it |
| Dbft.DBFT.OnTimeout | pkg/dbft/dbft.go:170-198 | an old timeout changes nothing; the primary proposes, a committed node stays and sends a recovery message, any other asks for the next view, or for recovery, and enters it exactly if a quorum asks for it |
| Dbft.DBFT.OnReceive | pkg/dbft/dbft.go:201-259 | a message of another height, of an unknown validator, or of the next view unless it is for recovery, is dropped and changes nothing, any other is handled; a validator that was heard in this view does not count as failed; the invariant is kept, unless a block that is decided does not get into the chain; a node that has signed stays in its view for as long as it stays at its height |
| Dbft.DBFT.Start | pkg/dbft/dbft.go:79-83 | starts the height after the chain; its primary prepares the proposal that pool, clock and nonce call for |
| Dbft.DBFT.HandleChainBlock | pkg/consensus/consensus.go:313-322 | a block at this height or beyond starts the height after the chain; the invariant is kept |
| DbftLimits.LockCanBeLost | pkg/dbft/dbft.go:61-76 | events from the start of a node that make it sign, and then enter the next view because a late transaction makes it reject the block |
| DbftState.PreparedOk | pkg/dbft/send.go:30-43 | one preparation per view keeps the invariant |
| DbftState.SignOk | pkg/dbft/send.go:109-134 | a signature on a quorum of preparations keeps the invariant |
| DbftState.StoreRequestOk | pkg/dbft/dbft.go:318-321 | storing the request keeps the invariant |
| DbftState.StoreResponseOk | pkg/dbft/dbft.go:400-446 | storing a response keeps the invariant |
| DbftState.StoreCommitOk | pkg/dbft/dbft.go:479-506 | storing a commit keeps the invariant |
| DbftState.DecideOk | pkg/consensus/consensus.go:504-546 | a decision on a quorum of commits keeps the invariant |
| DbftState.StaleExact | pkg/dbft/send.go:30-43 | all preparations that a node counts are for its request if and only if it is a backup, or a primary that had no response to another request when it sent its own |
| DbftLimits.StaleSignature | pkg/dbft/send.go:30-43 | events from the start of a node that make it sign as primary on three preparations of which one is for another request |
| DbftSteps.AfterPreparations | pkg/dbft/check.go:8-38 | signs a header exactly if all transactions, the request and M preparations are there and no commit was sent; it prepares nothing and loses nothing |
| DbftSteps.AfterRefusal | pkg/dbft/send.go:57-91 | enters the next view if and only if no more than F are missing, the view is not the last and a quorum asks for it |
| DbftSafety.QuorumsMeet | pkg/dbft/context.go:76-80 | two sets of M validators share an honest one when at most F are faulty |
| DbftSafety.RunOk | pkg/dbft/dbft.go:201-259 | over any run of lawful steps, however many validators are faulty, every honest log is sound, and what is heard from honest nodes was sent |
| DbftSafety.OneBlockPerHeight | pkg/dbft/check.go:40-77 | two certificates of M signatures at one height, in the same or different views, are on the same header |
| DbftSafety.CertificateStays | pkg/dbft/check.go:40-77 | a certificate stays one for the rest of the run, so certificates of different moments agree |
| DbftSafety.CertifiedIsCertificate | pkg/consensus/consensus.go:525-546 | the witness of a block that an honest node decided, when its commits sign the block, is a certificate |
| DbftSafety.DecidedAgree | pkg/dbft/check.go:40-77 | honest nodes that decide blocks with valid witnesses at one height decide the same block, whenever and in whatever views |
| DbftSafety.SameViewSameHeader | pkg/dbft/check.go:8-38 | honest nodes that sign at the same height and view sign the same header for the same request, on preparations of M validators for it as far as these are not stale, and a backup counts no stale ones |
| DbftSafety.SignedIsPrepared | pkg/dbft/check.go:8-38 | a signature rests on preparations of M validators; all but stale ones are for the signed request, and those of honest validators were really sent |
| DbftSafety.SignedWasProposed | pkg/dbft/send.go:109-127 | a signed header is that of a request, which an honest primary really proposed |
| DbftNetwork.Deliver | pkg/dbft/dbft.go:201-259 | a message that is vouched for leads the node where the handler says; its log stays sound and only grows, and what it heard from honest nodes was sent |
| DbftNetwork.Fire | pkg/dbft/dbft.go:170-198 | a timeout leads the node where the handler says and leaves a sound log that only grew |
| DbftNetwork.HandOver | pkg/dbft/dbft.go:138-167 | a transaction leads the node where the handler says and leaves a sound log that only grew, even when the lock is lost |
| DbftNetwork.Begin | pkg/dbft/dbft.go:79-135 | starting, once, leads the node where it says and leaves a sound log that only grew |
| DbftNetwork.VouchedIsAuthentic | pkg/consensus/consensus.go:324-333 | when the parts of a message in the name of honest nodes are among what they broadcast, all its preparations and commits are authentic |
| DbftNetwork.StandingMoves | pkg/consensus/consensus.go:259-311 | the nodes that are relied on change only by the one that relapses in an event |
| DbftNetwork.RunOfFewer | pkg/consensus/consensus.go:259-311 | a run stays a run when a node is not relied on any more |
| DbftNetwork.Protocol | pkg/consensus/consensus.go:259-311 | the same for any number of nodes made by the constructor, whichever of them are honest |
| DbftNetwork.Execute | pkg/consensus/consensus.go:259-311 | any nodes over any list of events: each event leads its node, as long as this has not relapsed, to the state that the event makes of its last one and no other node anywhere; all of it is a run of the nodes that have not relapsed, and if the others are at most F, these have not decided different blocks with valid witnesses at one height |
| Storage.FlatCompose | pkg/core/storage/memory_store.go:65-72 | two sets of changes, one over the other, are one set in which the later wins |
| Storage.ListingUnique | pkg/core/storage/memory_store.go:99-136 | the entries of a range, once each and in order, form exactly one list |
| Storage.LessExactly | pkg/core/storage/memory_store.go:114-119 | keys are ordered by the first byte in which they differ, a start before the whole |
| Storage.RangeExactly | pkg/core/storage/memory_store.go:103-115 | a range holds the keys with its prefix that are not before prefix and start, in the direction of the seek |
| Seek.MergedListing | pkg/core/storage/memcached_store.go:241-314 | merging the sorted changes with the listing of the lower map lists the map that they stand for, deleted keys hidden |
| Seek.MergeFeeds | pkg/core/storage/memcached_store.go:241-314 | entry by entry, whenever the caller stops, the merge hands on the merged list up to there |
| Seek.CallbackSees | pkg/core/storage/memory_store.go:131-135 | a callback sees the entries up to and including the first at which it stops |
| SeekCursor.Visit | pkg/core/storage/memcached_store.go:254-295 | the cursor of one layer hands on the changes before an entry and the entry unless it is changed |
| SeekCursor.Drain | pkg/core/storage/memcached_store.go:296-313 | after the lower layer the changes that are left are handed on, unless the caller has stopped |
| SeekCursor.SortedRange | pkg/core/storage/memcached_store.go:209-239 | the entries of the range, each once, sorted for the direction |
| MemStore.MemCachedStore.Get | pkg/core/storage/memcached_store.go:94-105 | reads the plain map through any number of layers; deleted keys are absent |
| MemStore.MemCachedStore.Put | pkg/core/storage/memcached_store.go:108-115 | the plain map with the new value; the lower layers are untouched |
| MemStore.MemCachedStore.Delete | pkg/core/storage/memcached_store.go:118-123 | the plain map without the key; the lower layers are untouched |
| MemStore.MemCachedStore.PutChangeSet | pkg/core/storage/memory_store.go:65-72 | the plain map with the changes taken over |
| MemStore.MemCachedStore.Seek | pkg/core/storage/memcached_store.go:194-314 | over any stack of layers, forwards or backwards, the callback gets exactly the entries of the plain map in the range, in order, until it stops |
| MemStore.MemCachedStore.PersistPrivate | pkg/core/storage/memcached_store.go:334-345 | a private layer hands its changes down: what is read stays, and the lower layer holds it; on an error nothing changes |
| MemStore.MemCachedStore.BeginPersist | pkg/core/storage/memcached_store.go:347-369 | moving the changes to a store in between changes nothing that is read |
| MemStore.MemCachedStore.Flush | pkg/core/storage/memcached_store.go:371-371 | while the lower store takes the changes over nothing changes that is read |
| MemStore.MemCachedStore.EndPersist | pkg/core/storage/memcached_store.go:373-394 | taking the store in between away, after success or failure, changes nothing that is read |
| MemStore.MemCachedStore.Persist | pkg/core/storage/memcached_store.go:330-395 | with any writes before and after the flush, on success and on failure, what is read is the old map with these writes; on success the lower store holds the map of the start; the number of changes is returned |
| AccessLists.AccessList.Contains | pkg/core/statedb/access_list.go:20-32 | the flags say exactly whether address and slot are listed |
| AccessLists.AccessList.AddAddress | pkg/core/statedb/access_list.go:60-66 | lists the address and no slot, and reports whether it was new |
| AccessLists.AccessList.AddSlot | pkg/core/statedb/access_list.go:73-91 | lists address and slot and nothing else, and reports what was new |
| AccessLists.AccessList.Copy | pkg/core/statedb/access_list.go:42-56 | an own list with the same contents |
| StateDb.CloneFits | pkg/core/statedb/statedb.go:22-35 | a clone is the same state if and only if the refund counter fits a signed 64-bit integer |
| StateDb.Int64Wraps | pkg/core/statedb/statedb.go:22-35 | the counter of a clone is that of the state modulo 2^64, between -2^63 and 2^63 |
| StateDb.OwnPartOnly | pkg/core/statedb/statedb.go:125-215 | an operation changes its own part of the state only, and what was logged stays |
| StateDb.Layer.Clone | pkg/core/statedb/statedb.go:22-35 | a layer over this one that reads the same, with the counter taken through 64 bits |
| StateDb.StateDB.Snapshot | pkg/core/statedb/statedb.go:68-72 | the stack of plain states grows by a copy of the last, and the index is returned |
| StateDb.StateDB.RevertToSnapshot | pkg/core/statedb/statedb.go:74-80 | the stack of plain states is cut back to what it was at the snapshot |
| StateDb.StateDB.Apply | pkg/core/statedb/statedb.go:125-131 | an operation changes the last plain state as it should and no other |
| StateDb.StateDB.Commit | pkg/core/statedb/statedb.go:232-245 | the storage of the last state becomes that of the first layer; counter, logs and access list of the upper layers are dropped |
| StateDb.StateDB.GetState | pkg/core/statedb/statedb.go:137-143 | reads the slot in the last state, zero when absent |
| StateDb.StateDB.GetCommittedState | pkg/core/statedb/statedb.go:82-85 | reads the slot as it was before the first snapshot |
| StateDb.StateDB.SetState | pkg/core/statedb/statedb.go:145-147 | sets the slot in the last state and nothing else |
| StateDb.StateDB.GetRefund | pkg/core/statedb/statedb.go:133-135 | the low 64 bits of the absolute value of the counter |
| StateDb.StateDB.SlotInAccessList | pkg/core/statedb/statedb.go:196-198 | the flags of the last state |
| StateDb.Execute | pkg/core/statedb/statedb.go:22-80 | over any run of writes, snapshots, reverts and commits the layers read like a machine that copies the whole state at each snapshot |
| StateDb.RevertRestores | pkg/core/statedb/statedb.go:68-80 | whatever is done between a snapshot and the revert to it, the states are those at the snapshot |
| VmAnalysis.NextStart | pkg/vm/analysis.go:75-81 | past an instruction the sweep is the sweep from there, and its arguments start nothing |
| VmAnalysis.Set1 | pkg/vm/analysis.go:33-35 | sets one bit and no other |
| VmAnalysis.SetN | pkg/vm/analysis.go:37-43 | sets two to seven bits and no other, when nothing is set from there on |
| VmAnalysis.Set8 | pkg/vm/analysis.go:45-49 | sets eight bits and no other, when nothing is set from there on |
| VmAnalysis.Set16 | pkg/vm/analysis.go:51-56 | sets sixteen bits and no other, when nothing is set from there on |
| VmAnalysis.MarkPush | pkg/vm/analysis.go:82-115 | sets the bits of the arguments of one PUSH, within the bytes |
| VmAnalysis.SweepStep | pkg/vm/analysis.go:75-118 | marking one instruction extends the bitmap of the sweep |
| VmAnalysis.CodeBitmapInternal | pkg/vm/analysis.go:75-118 | a bit is clear if and only if an instruction of the sweep starts there; all writes stay within the bytes |
| VmAnalysis.CodeBitmap | pkg/vm/analysis.go:64-70 | four bytes beyond the code are enough |
| VmAnalysis.Contract.IsCode | pkg/vm/contract.go:101-130 | whichever cache answers, true exactly for starts of instructions; the shared analyses stay |
| VmAnalysis.Contract.ValidJumpdest | pkg/vm/contract.go:85-97 | a jump may go exactly to the JUMPDEST instructions of the sweep |
| VmGas.CallGasCapped | pkg/vm/gas.go:37-53 | the charge succeeds if and only if the base cost is available, although the subtraction may wrap, and then the call gas is the smaller of request and all but one 64th |
| VmGas.GasCall | pkg/vm/operations_acl.go:160-192 | a successful charge is the base cost and the call gas, which is within the cap; it succeeds exactly if the base cost is available |
| VmGas.Memory.MemoryGasCost | pkg/vm/gas_table.go:29-56 | the fee is the price of the larger memory less what was paid, or the error |
| VmGas.Memory.Grow | pkg/vm/interpreter.go:202-229 | in whatever steps memory grows, it is paid for once |
| VmSstore.NetMetering | pkg/vm/operations_acl.go:52-95 | what a store costs beyond a read, less its refund, is the difference of a potential of the slot |
| VmSstore.NetCostTelescopes | pkg/vm/operations_acl.go:52-95 | over any stores of one slot only first value, last value and their number count |
| VmSstore.GasSStore | pkg/vm/operations_acl.go:27-96 | cost and refund change in numbers, the access list, and the error cases |
| VmSstore.SStore | pkg/vm/instructions.go:524-533 | a store is made if and only if it is not read-only, the address is listed, more than 2300 gas is there and the cost; then the slot holds the value, and gas and counter move by the numbers of the specification: 20000 to create a slot, 2900 to change or clear one, 100 for any other store, 2100 more for a cold one |
| VmSstore.PricesInNumbers | pkg/vm/operations_acl.go:52-95 | what each kind of store takes and what it adds to the counter, in numbers |
| VmSstore.StoresInNumbers | pkg/vm/operations_acl.go:52-95 | over any stores to a clean slot the gas less the refunds is 100 for each, and 19900 more for a slot that is created in the end, 2800 for one that is changed, less the refund for clearing |
| VmSstore.SetAndCleared | pkg/vm/operations_acl.go:52-95 | a slot that is set and cleared again takes 20100 gas, and 19900 are refunded |
| VmSstore.RecreateCovered | pkg/vm/operations_acl.go:72-76 | when a cleared slot is filled again the counter covers the refund that is taken back |
| VmSstore.StoredKeepsRefund | pkg/vm/operations_acl.go:52-95 | after any store the counter still covers the refunds of all cleared slots, in every layer |
| VmSstore.RefundCovers | pkg/core/statedb/statedb.go:125-135 | over any run of stores, other instructions, snapshots and reverts the counter is at least the clearing refund times the number of cleared slots |
| VmRun.Run | pkg/vm/interpreter.go:116-247 | for any instructions a frame ends, leaves no more gas than it had, changes only the current layer and those above, and keeps the counter covered as long as 199 times the gas used fits 63 bits; a read-only frame leaves all slots and the counter as they were; frames are nested no deeper than 1025 |
| VmRun.Do | pkg/vm/interpreter.go:181-240 | what every instruction makes of the state, of which each uses gas that does not end the frame, by its price in the instruction table, and a frame that it makes gets less gas than there was; in a read-only frame stores, creations, calls with value and all other writes fail |
| VmRun.EveryStepCosts | pkg/vm/jump_table.go:234-1046 | in the active instruction table only what ends a frame is free |
| VmRun.DoInvoke | pkg/vm/instructions.go:667-801 | the called frame gets exactly the smaller of what was asked for and all but one 64th of what the rest of the charge leaves, besides the stipend, and what it leaves comes back; it fails exactly if the charge is not there, or if it pays in a read-only frame |
| VmRun.Enter | pkg/vm/evm.go:176-405 | also as the outermost call: what comes back of the gas and what becomes of the state, in each case; an error leaves every state as it was, and uses up the gas unless it is a revert or the call was refused at once; a static call, and any call of a read-only frame, leaves all slots and the counter as they were |
| VmRun.Execute | pkg/vm/evm.go:215-252 | code runs one level deeper on all the gas, read-only if the caller is or the call is static, and built-in contracts take their cost; neither returns more gas than it got |
| VmRun.DoCreate | pkg/vm/instructions.go:580-665 | a creation gives the new frame exactly all but one 64th of the gas that is left, what it leaves comes back, and it fails exactly if its charge is not there or the frame is read-only |
| VmRun.Make | pkg/vm/evm.go:420-510 | also as the outermost creation: what comes back of the gas and what becomes of the state, in each case; an error goes back to the state after nonce and access list were changed, and uses up the gas unless it is a revert or the creation was refused at once |
| VmRun.Settle | pkg/vm/evm.go:241-252 | an error reverts to the snapshot; only a revert keeps the gas |
| VmRun.Transact | pkg/core/blockchain.go:688-732 | a whole transaction: what becomes of the state, and what comes back of its gas; the refund counter read at its end is the true one, at least the refunds for all slots that it cleared and at most 199 times the gas used, whenever that fits 63 bits; without success there is no refund |
| VmRun.Block | pkg/core/blockchain.go:687-756 | any number of transactions one after the other, each from a state with one layer and an empty counter to the next |
| Mempool.Pool.Add | pkg/core/mempool/mem_pool.go:173-245 | in place of a rival, or of the last one when the pool is full, or as it is; each error exactly in its case and then nothing changes; the costs recorded are exactly those of before with the difference |
| Mempool.Pool.CheckTxConflicts | pkg/core/mempool/mem_pool.go:432-452 | finds a transaction to replace exactly if there is one, and checks the balance without it |
| Mempool.Pool.RemoveInternal | pkg/core/mempool/mem_pool.go:256-284 | takes the transaction out of list and index and its cost from its payer |
| Mempool.Pool.Remove | pkg/core/mempool/mem_pool.go:249-253 | the pool without the hash |
| Mempool.Pool.RemoveStale | pkg/core/mempool/mem_pool.go:289-327 | of the old items exactly those stay that are valid, pay a fee that has been raised, and are covered by the balance besides those of their payer that stay before them; the sums are exact again |
| Mempool.KeptExactly | pkg/core/mempool/mem_pool.go:289-327 | which items stay, one after the other |
| Mempool.Priority | pkg/core/mempool/mem_pool.go:81-98 | the list is in the order of gas price, then gas, then hash, the larger first |
| Mempool.Pool.TryAddSendersFee | pkg/core/mempool/mem_pool.go:138-156 | records the cost, unless the balance does not cover it |
| Mempool.Pool.Search | pkg/core/mempool/mem_pool.go:198-200 | binary search for the place of a transaction |
| Mempool.Pool.TryGetData | pkg/core/mempool/mem_pool.go:393-414 | finds the data of a hash if and only if it is pooled |
| Mempool.Pool.TryGetValue | pkg/core/mempool/mem_pool.go:382-390 | finds a transaction if and only if it is in the list |
| Mempool.Pool.Verify | pkg/core/mempool/mem_pool.go:458-463 | yes if and only if the balance covers the transaction besides what is recorded for its payer, without the cost of a pooled transaction that it is to replace; then the costs in the pool are covered too |
| Mempool.Pool.Insert | pkg/core/mempool/mem_pool.go:217-232 | the item goes to its place, the rest keeps its order |
| Mempool.StaleKeep | pkg/core/mempool/mem_pool.go:300-309 | a kept item extends the exact sums |
| Mempool.InsertOrder | pkg/core/mempool/mem_pool.go:198-229 | the list stays strictly descending |

## Left out

- Nodes are values: in-place updates of shared nodes, cached bytes and hashes and their invalidation are not modelled, and so not that `Find` collapses nodes of the tree that it searches in place.
- MptTrie.Trie.Flush: counts are unbounded integers, not 32-bit ones, and an entry of the table always has the bytes that its hash was computed from, so the panic for one without them has no counterpart.
- MptTrie.Trie.GetFromStore: the store holds decoded nodes; when decoding would fail is `MptEncoding.EncodingRoundTrip`, and that it does not for contents within the limits is `MptTheorems.UpdateFits`.
- Storage failures inside trie updates: reads of present keys succeed.
- Sorting of batches (`MapToMPTBatch`): a batch is given sorted and without duplicates.
- MptProof.VerifyProof: byte lists that hash to themselves could send the search in circles, so it takes a bound on the nodes it reads; `MptProof.AcceptedExactly` says which bound is enough. A byte list that encodes the empty node makes the source panic where it is looked up; here it is a node that is not found (`MptProof.Panics` says when the search comes to one, and `MptProof.NeverPanics` that it does not below the root of a trie).
- MptFind.Find: results are paths and values; that the path of a returned key is the found one is `MptFind.FoundKey`. The search is modelled on the trie's own store with every node readable, and for a positive maximum.
- MptBillet.RestoreAll: the prefix byte of the temporary storage, which is a map of its own here, and `Billet.Traverse` outside of `Find` are not modelled.
- StateRoot: `JumpToState`, `CleanStorage`, witness verification and the key cache; activity and block index are a field of the stored item, not its last five bytes.
- dBFT timers, restarts, loggers, the watch-only switch of the configuration (a watching node has index -1), signatures as cryptography, and the byte format of recovery messages.
- Dbft.DBFT.Fill: clock, nonce and pool are inputs.
- Dbft.DBFT.InitializeConsensus: validators are the same at every height; what a node does after it has started a height anew, or left a view after its commit, is not modelled.
- `SeekAsync` with a cut prefix, cancelling a seek, other stores than these layers, closing, and `GetBatch`. A prefix is not empty, as pkg/core/storage/store.go:54-55 asks for, although line 61 speaks of an empty one.
- MemStore.MemCachedStore.Put: a layer writes to the map that the key belongs to, as `MemCachedStore.Put` does. `MemoryStore.Put` by itself (pkg/core/storage/memory_store.go:46-49) always writes to the other map than the one that contract storage is read from, so a storage key that is put there directly is not found; the bottom store of the model gets its contents by `PutChangeSet` from above.
- MemStore.MemCachedStore.PersistPrivate: the maps are emptied, where the source sets them to nil, so that a later write would fail there.
- `PrepareAccessList` as such, `DeleteSlot`, `DeleteAddress` and `ForEachStorage`; balances, nonces and code are plain writes of storage items.
- SELFDESTRUCT beyond its writes, and total supply.
- VmRun.Do: instructions other than stores, calls and creations are a gas cost that their price in the table bounds from below, operations on the state and an outcome. Stack and memory contents, the program counter and tracing are not modelled.
- VmRun.Run: writes of native contracts do not touch slots of contracts with code, and calls to natives and precompiles have arbitrary cost and result.
- VmRun.Transact: which changes come before and after the outermost call is an input; the part of the refund that is paid out, a fifth of the gas used at most, is left out.
- VmGas.GasCall: the size that memory grows to is an input; the fee is that of `VmGas.Memory.MemoryGasCost`.
- Mempool: events, resending and metrics; the shared big integers of a fees record.
