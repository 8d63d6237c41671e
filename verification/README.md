# Verified models of the mjoy-go core

This project models the parts of mjoy-go, a blockchain node, whose correctness is hard to see from
the code: the Merkle Patricia trie and everything built on it, the scheduler that downloads tries,
the journalled account state and the application of transactions, the maintenance of the canonical
chain, the sparse-bitset compressor, the encrypted transport, the negotiation of subprotocols and
the dial scheduler. `dafny verify dfyconfig.toml` checks all of it with Dafny 4.11.

Code that updates objects in place is modelled by classes and methods with frames; recursive code
that returns new values is modelled by functions. Hashes are free constructors over what is hashed
(`Keccak(blob)`, `HashOf(header)`), so they are collision free by construction, and a database is a
map from digests to encoded data. Nothing is postulated: every fact about hashes and stores follows
from the datatypes.

## Main results

**Trie.** `PatriciaTree.Canonical`: a well-formed trie is determined by its contents, so
(`NodeCodec.RootHashIsContents`) roots agree exactly when contents do. `TrieOps.GetCorrect`,
`InsertCorrect` and `DeleteCorrect` hold on every partly loaded node, with loading, cached hashes,
cache generations and embedded nodes as in the code; `Trie.Trie` turns them into lookup, update and
removal on a finite map. `Trie.HistoryIndependence`: two runs of updates, deletions, reads, hashes,
commits and cache limits end in the same root exactly when they leave the same map. `Trie.Reopen`: a
committed trie reopens with its contents. `Proof.ProofSound` and `Proof.ProveAndVerify` give
soundness against any content-addressed proof set and completeness for present and absent keys.
`TrieIterators.EntriesOf` and `DifferencesOf`: seeking iteration yields exactly the entries not below
the start, in order; difference iteration yields exactly what the second trie has and the first lacks,
although equal subtrees are skipped.

**Trie synchronisation.** Requests are heap objects with counters and parent lists.
`TrieSync.TrieSync.DepsCountParents` and `ParentsLive` read the counting invariant off every state
that additions, deliveries, refused deliveries and flushes can reach; `Complete` ends although it
recurses through parents; `Commit` says when the store is closed under references after every prefix
of its writes. `SyncedTrie.Run` carries the invariants through any run, and `NothingPending` and
`LeafComplete` read off its end that every trie asked for is there as a whole, with the tries and
raw entries its leaves name, unless somebody asked for one of its nodes as a raw entry.

**State.** `StateDB.StateDB.RevertToSnapshot` restores everything observable for any interleaving of
changes and nested snapshots, keeps earlier snapshots, and drops exactly the later ids; `Finalise`
leaves the trie with what is seen of every account that did not lose its mark.
`StateTransition.Process` accounts for every balance and nonce of an accepted block, whoever among
sender, recipient and coinbase coincide.

**Chain.** After every `HeaderChain.HeaderChain.WriteHeader`, `SetHead` and
`BlockChain.BlockChain.WriteBlockAndState` the number index is exactly the ancestor chain of the
head; block writes keep the transaction index exact as well.

**Algorithms.** `Compress.DecodeExactly`: each value has one accepted encoding. `Transport.Converse`:
any sequence of messages arrives as sent with both ends in step, and `Transport.ReadsFramed`: exactly
frames with both tags right are read. `Protocols.Agreement` and `Route`:
two peers select the same protocols and offsets and messages reach their namesake. `Dial.DialState`
and `Dial.Server` keep the dial budget over every run of events.

## Properties that fail, and when they hold

- Verifying a proof against the root of the empty trie always fails, because proving stores nothing
  for it. `Proof.ProveAndVerify`: proving and verifying succeed exactly when the trie is not empty.
- A rejected leaf leaves its request loaded while its children were never scheduled
  (`SyncedTrie.RejectedLeaf`). For nodes of tries, which have at most one value child, the scheduler
  stays consistent exactly if the callback accepts the leaves of every item
  (`TrieSync.TrieSync.ProcessItem`, `Process`); for any node exactly as `StoppedAt` says.
- A raw entry that happens to be a node is stored without what it refers to (`SyncedTrie.RawNode`).
  A flush leaves the store closed exactly if what the entries to be written refer to is stored or
  among them (`TrieSync.TrieSync.Commit`); a synchronised trie is whole exactly if none of its nodes
  was taken as raw with something missing below it (`SyncedTrie.NothingPending`).
- Undoing a touch takes the account out of the dirty set without letting it in again, so what changes
  later is seen but never written (`StateDB.LostMark`). Finalising writes what is seen of an account
  exactly if it is dirty or already written (`StateDB.StateDB.Finalise`); only addresses whose touch
  is undone lose their mark (`RevertToSnapshot`), and processing a block loses none.
- A message with a negative value passes the balance check and can drive its recipient below zero
  (`StateTransition.NegativeValue`); `StateTransition.TransferNonNegative` gives the exact condition.
- Rewinding deletes canonical headers only, so headers of side branches can lose their ancestors
  (`HeaderChain.Orphan`): the store stays closed exactly if no header that stays stood on one that
  goes (`HeaderChain.HeaderChain.SetHead`).
- A reorganisation deletes the entries of transactions that only the old branch had. One that also
  occurs below the fork loses its entry (`BlockChain.LostEntry`); the index is exact exactly if there
  is none (`ChainIndex.Switch`, `BlockChain.BlockChain.Reorg`).

## Hypotheses

- Proof verification does not hash what it reads. With a set whose entries are not stored under their
  own hashes it can give another trie's answer (`Proof.Forged`) or never end (`Proof.Endless`);
  `Proof.ProofSound` is about content-addressed sets, which a caller gets by hashing the entries.
- What leaves name is complete for leaves whose node was taken with the callback and is stored on its
  own: the code calls back neither for values inside embedded nodes nor for nodes first asked for
  without the callback.
- A synchronisation starts on a database in which every node is stored with what it needs.

## Model

| member | source | states |
|---|---|---|
| `HexKeys.ComputeKeyToHex` | src/mjoy.io/trie/encoding.go:70-79 | each byte of a key becomes its high and its low nibble, and 16 closes the string, which is always a path |
| `HexKeys.HexToKeyInverse` | src/mjoy.io/trie/encoding.go:70-93 | hexToKeybytes undoes keybytesToHex on every key |
| `HexKeys.ComputeHexToKey` | src/mjoy.io/trie/encoding.go:83-93 | each byte is 16 times one nibble plus the next, terminator or not |
| `HexKeys.DecodeNibbles` | src/mjoy.io/trie/encoding.go:95-99 | the array is filled with the bytes of the nibbles, two to each |
| `HexKeys.ComputeHexToCompact` | src/mjoy.io/trie/encoding.go:41-56 | the first nibble is twice the terminator flag plus the oddness flag, the second is the odd nibble or 0, and the other nibbles follow in pairs, high nibble first, for any nibble string |
| `HexKeys.CompactToHexInverse` | src/mjoy.io/trie/encoding.go:41-68 | compactToHex undoes hexToCompact on every nibble string |
| `HexKeys.HexToCompactInverse` | src/mjoy.io/trie/encoding.go:41-68 | hexToCompact undoes compactToHex up to the flag byte, so exactly for flags below 4 with no nibble beside a clear oddness flag |
| `HexKeys.CompactLaidOut` | src/mjoy.io/trie/encoding.go:41-56 | the layout of the compact form, stated from the nibbles alone |
| `HexKeys.HexToCompactInjective` | src/mjoy.io/trie/encoding.go:41-68 | different nibble strings never share a compact form |
| `HexKeys.ComputePrefixLen` | src/mjoy.io/trie/encoding.go:102-113 | the loop finds the length of the common prefix |
| `HexKeys.PrefixLenUnique` | src/mjoy.io/trie/encoding.go:102-113 | the common prefix length is determined: equal up to it, different at it |
| `HexKeys.PathsPrefixFree` | src/mjoy.io/trie/encoding.go:70-79 | of two terminated paths neither is a proper prefix of the other |
| `PatriciaTree.Canonical` | src/mjoy.io/trie/trie.go:237-435 | two well-formed tries with the same contents are the same tree |
| `NodeCodec.TreeOfBlob` | src/mjoy.io/trie/node.go:45-129 | expanding the collapsed form of a tree, embedded or by hash, gives the tree back |
| `NodeCodec.RefForm` | src/mjoy.io/trie/hasher.go:165-179 | a parent holds a node itself if its encoding is shorter than 32 bytes, and its hash otherwise |
| `NodeCodec.RootHashIsContents` | src/mjoy.io/trie/trie.go:237-510 | roots are equal exactly when contents are equal |
| `TreeUpdate.SplitUpdated` | src/mjoy.io/trie/trie.go:256-272 | splitting a short node at the first difference changes the one path inserted and no other |
| `TreeUpdate.SplitWF` | src/mjoy.io/trie/trie.go:256-272 | the split keeps the tree well formed |
| `TreeUpdate.JoinUpdated` | src/mjoy.io/trie/trie.go:342-357 | merging a short node with the short node left under it keeps every other path |
| `TreeUpdate.JoinWF` | src/mjoy.io/trie/trie.go:342-357 | the merge leaves no short node under a short node |
| `TreeUpdate.SoleUpdated` | src/mjoy.io/trie/trie.go:388-408 | reducing a full node to its only other child keeps every other path |
| `TrieNode.ExpandDecode` | src/mjoy.io/trie/node.go:206-237 | a decoded node stands for the tree its encoding stands for, whatever flags it gets |
| `TrieNode.DecodeBacked` | src/mjoy.io/trie/node.go:206-237 | decoding data whose references can all be followed gives a node whose references can all be followed |
| `TrieNode.ResolveOk` | src/mjoy.io/trie/trie.go:451-460 | resolving a hash gives a node for the same tree, with its hash cached, or reports that hash missing |
| `TrieOps.GetCorrect` | src/mjoy.io/trie/trie.go:161-197 | on any partly loaded node: the value is that of the tree, the node returned stands for the same tree, and a miss names a hash that is absent |
| `TrieOps.GetStamped` | src/mjoy.io/trie/trie.go:162-200 | nodes on a path on which something was loaded are of the current generation; otherwise the node is unchanged |
| `TrieOps.InsertCorrect` | src/mjoy.io/trie/trie.go:237-304 | the tree after insertion has the new value at the path and the old values elsewhere and stays well formed; a change is reported exactly if the value was not there |
| `TrieOps.InsertStamped` | src/mjoy.io/trie/trie.go:237-310 | a node that an insertion changes has no hash, is dirty, and is of the current generation |
| `TrieOps.DeleteCorrect` | src/mjoy.io/trie/trie.go:328-435 | the tree after deletion lacks the path and keeps all others and stays well formed, through every merge and reduction, loading the remaining child where needed; a change is reported exactly if there was a value |
| `TrieOps.DeleteStamped` | src/mjoy.io/trie/trie.go:335-435 | the same for a node that a deletion changes |
| `TrieOps.CountChildren` | src/mjoy.io/trie/trie.go:377-387 | the loop finds the only child left in a full node, or that there are several |
| `TrieOps.Diverge` | src/mjoy.io/trie/trie.go:242-266 | past the common prefix both keys go on, with different nibbles |
| `Hasher.Hash` | src/mjoy.io/trie/hasher.go:58-100 | hashing gives the collapsed form of the tree; the cached copy stands for the same tree, unloaded or not; a clean node with a hash is unloaded exactly when it is old enough and else kept as it is; with a database everything below is then retrievable |
| `Hasher.UnloadsAfter` | src/mjoy.io/trie/node.go:155-158 | a clean node is old enough once the 16-bit counter is the limit past its generation, around the end of the range or not |
| `Hasher.HashChildren` | src/mjoy.io/trie/hasher.go:105-150 | children are collapsed to embedded nodes or hashes, and the copy keeps its meaning |
| `Hasher.HashFull` | src/mjoy.io/trie/hasher.go:126-144 | the loop over sixteen children keeps each of them |
| `Hasher.StoreNode` | src/mjoy.io/trie/hasher.go:152-179 | nodes of fewer than 32 bytes are embedded unless forced, others are stored under the hash of their own encoding |
| `Trie.Trie.TryGet` | src/mjoy.io/trie/trie.go:152-159 | lookup in the finite map, over any partly loaded trie; contents never change |
| `Trie.Trie.TryUpdate` | src/mjoy.io/trie/trie.go:219-235 | update of the finite map at one key, removal for an empty value; on a missing node nothing changes |
| `Trie.Trie.TryDelete` | src/mjoy.io/trie/trie.go:315-323 | removal from the finite map at one key; on a missing node nothing changes |
| `Trie.Trie.Hash` | src/mjoy.io/trie/trie.go:468-472 | the root hash of the contents; contents and retrievability are kept |
| `Trie.Trie.Commit` | src/mjoy.io/trie/trie.go:493-510 | the returned root is that of the contents, the trie in memory keeps them, and from the root everything can be retrieved |
| `Trie.Trie.Open` | src/mjoy.io/trie/trie.go:117-130 | a trie opened at a root denotes the tree of that root; a missing root is reported exactly when it is absent |
| `Trie.Reopen` | src/mjoy.io/trie/trie.go:117-130 | commit and reopen: the new trie has the same contents and is retrievable, and so does the old one |
| `Trie.ValuesDetermineRoot` | src/mjoy.io/trie/trie.go:237-435 | tries agree on every byte key exactly when their roots agree |
| `Trie.Replay` | src/mjoy.io/trie/trie.go:205-510 | every run of updates, deletions, reads, hashes, commits and cache limits on a fresh trie succeeds and leaves exactly the finite map of the run |
| `Trie.HistoryIndependence` | src/mjoy.io/trie/trie.go:205-510 | two runs end in the same root exactly when they leave the same map, whatever was loaded, committed or unloaded in between |
| `Proof.VerifyProof` | src/mjoy.io/trie/proof.go:105-129 | on any proof set whatever, after any number of rounds of the loop: the answer, the hash found absent, a bad node, an index out of range, or that it goes on |
| `Proof.Descend` | src/mjoy.io/trie/proof.go:131-153 | the loop ends where following the key through embedded nodes leads: at a value, at a hash with the rest of the key, at nothing, or past the end of the key in a full node |
| `Proof.FollowLeads` | src/mjoy.io/trie/proof.go:131-153 | on a node of a trie what is reached answers for the rest of the key as the node does for the whole, and the key gets shorter |
| `Proof.ProofSound` | src/mjoy.io/trie/proof.go:105-153 | against a content-addressed proof set and the root of a trie verification ends; the answer is the trie's own, an error names an absent hash and means that the path is not supplied; for the empty trie it always errs |
| `Proof.Forged` | src/mjoy.io/trie/proof.go:105-129 | a set that holds another trie's node under the root makes verification give that trie's answer |
| `Proof.Endless` | src/mjoy.io/trie/proof.go:105-129 | a set that holds a reference to itself is followed for ever |
| `Proof.Collect` | src/mjoy.io/trie/proof.go:43-71 | the nodes collected are those on the path to the key, in order |
| `Proof.PutElements` | src/mjoy.io/trie/proof.go:72-98 | the proof holds the root and every path node that is not embedded, from the given level on |
| `Proof.PutExactly` | src/mjoy.io/trie/proof.go:72-98 | exactly the root and the nodes of at least 32 bytes, without the first ones left out, are put, each under its hash |
| `Proof.Prove` | src/mjoy.io/trie/proof.go:41-99 | proving reads the trie without changing its contents and stores what verification needs; a missing node is reported |
| `Proof.PathSupplied` | src/mjoy.io/trie/proof.go:72-98 | storing the path nodes makes the path readable from the proof set alone |
| `Proof.ProveAndVerify` | src/mjoy.io/trie/proof.go:41-153 | a proof of any key, present or absent, verifies to the trie's lookup, exactly when the trie is not empty |
| `Traversal.VisitAscending` | src/mjoy.io/trie/iterator.go:182-318 | pre-order visits paths in strictly increasing order |
| `Traversal.VisitBlock` | src/mjoy.io/trie/iterator.go:220-254 | the subtree of a visited node is one contiguous block of the order |
| `Traversal.LeavesAreEntries` | src/mjoy.io/trie/iterator.go:142-162 | the values met on the way are exactly the entries of the trie |
| `NodeIterator.NextChild` | src/mjoy.io/trie/iterator.go:268-304 | the child found is the first one still to be visited |
| `NodeIterator.NodeIterator.Peek` | src/mjoy.io/trie/iterator.go:220-254 | the node determined is the next in the order, or the next after the current subtree, or the end |
| `NodeIterator.NodeIterator.Push` | src/mjoy.io/trie/iterator.go:306-312 | moving onto the node peeked at advances by one position and keeps the stack and path in order |
| `NodeIterator.NodeIterator.Seek` | src/mjoy.io/trie/iterator.go:201-217 | seek stops just before the first node not below the key, at the end, or at a missing node from which it can go on |
| `NodeIterator.NodeIterator.Next` | src/mjoy.io/trie/iterator.go:182-199 | each call moves to the next node of the order, past the subtree if not descending; after a failed seek, to the first node not below the key; false means the end or a missing node |
| `Iteration.Collect` | src/mjoy.io/trie/iterator.go:48-60 | the iterator yields the remaining leaves, each once, in order |
| `Iteration.Entries` | src/mjoy.io/trie/iterator.go:119-126 | from a start key: exactly the entries whose path is not below it, in increasing order |
| `Difference.ComparedEqual` | src/mjoy.io/trie/iterator.go:320-336 | nodes that compare equal are the same subtree, or branch nodes on the same path without a hash |
| `Difference.EqualStep` | src/mjoy.io/trie/iterator.go:406-417 | after equal nodes, with or without their subtrees, what b passed is in a and a is still behind b |
| `Difference.AheadNotIn` | src/mjoy.io/trie/iterator.go:403-405 | a node of b before that of a is not in a |
| `Difference.DifferenceIterator.Next` | src/mjoy.io/trie/iterator.go:380-420 | a leaf returned is not in a, everything passed over is, and the call ends |
| `Difference.Differences` | src/mjoy.io/trie/iterator.go:347-420 | the leaves are exactly b's entries that a lacks, in path order |
| `TrieIterators.EntriesOf` | src/mjoy.io/trie/iterator.go:119-126 | iteration over a trie, hashed first as the constructor does, gives its entries from the start key on |
| `TrieIterators.DifferencesOf` | src/mjoy.io/trie/iterator.go:347-420 | the difference of two tries is exactly the entries of the second that the first lacks |
| `TrieSync.TrieSync.constructor` | src/mjoy.io/trie/sync.go:90-99 | a new scheduler is consistent and has its root known or pending |
| `TrieSync.TrieSync.AddSubTrie` | src/mjoy.io/trie/sync.go:102-131 | what is asked for is empty, known, or pending with its parent waiting for it; a request is made exactly if the node is not there, as one for a node with the callback given |
| `TrieSync.TrieSync.AddRawEntry` | src/mjoy.io/trie/sync.go:137-164 | the same for raw entries, which need only be present and are requested as raw |
| `TrieSync.TrieSync.Schedule` | src/mjoy.io/trie/sync.go:246-255 | a request for pending data hands its parent to the earlier request and is dropped; the counters stay right |
| `TrieSync.TrieSync.Children` | src/mjoy.io/trie/sync.go:259-316 | every reference of the node is known, waited for, or listed as a request for a node with the same callback, and only unknown ones are listed; what is newly asked for on behalf of leaves is named by one of them, and is asked for without the callback, as raw exactly if it is named as raw; leaves are accepted or rejection is reported |
| `TrieSync.TrieSync.AddLeaf` | src/mjoy.io/core/state/sync.go:33-42 | for every reference of a leaf that is not empty the data is known or the node waits for it; tries are asked for as nodes and other data as raw entries, both without the callback |
| `TrieSync.TrieSync.Dispatch` | src/mjoy.io/trie/sync.go:214-217 | counting all listed requests first and scheduling them one by one ends with the counter equal to what is waited for |
| `TrieSync.TrieSync.Complete` | src/mjoy.io/trie/sync.go:321-338 | recursive completion ends; requests move to the batch exactly when their last dependency did, and only their own parents are told |
| `TrieSync.TrieSync.Process` | src/mjoy.io/trie/sync.go:178-220 | every item before the one reported, or every item, is in the batch or waits with its data; nothing pending, known or taken is lost; nothing becomes raw but what leaves of the items name as raw; for nodes with at most one value the scheduler stays consistent exactly if no leaf is rejected; the error is that of the item reported; something was committed exactly if the batch grew |
| `TrieSync.TrieSync.ProcessItem` | src/mjoy.io/trie/sync.go:181-217 | items not requested, already processed or not a node are refused with nothing changed; any other is taken, into the batch or to wait, and rejected exactly if the callback rejects one of its leaves; what is newly asked for is a child of it, with its callback, or named by a leaf of it, as the leaf says; a hash is asked for or completed as raw only if it was before or a leaf of the item names it as raw; a rejected node with one value waits for nothing, so the scheduler is no longer consistent |
| `TrieSync.TrieSync.Commit` | src/mjoy.io/trie/sync.go:224-236 | after every prefix of the writes the store is closed under references exactly if what the entries written refer to was stored or is among them, which can fail for raw entries only; known data stays known; a failed flush keeps the batch |
| `TrieSync.TrieSync.DepsCountParents` | src/mjoy.io/trie/sync.go:204-338 | each pending request's counter is the number of times pending requests list it as a parent; whoever has data waits for a pending request |
| `TrieSync.TrieSync.ParentsLive` | src/mjoy.io/trie/sync.go:102-164 | every parent that a pending request lists is pending itself, as a node whose data has come |
| `TrieSync.TrieSync.StoppedAt` | src/mjoy.io/trie/sync.go:204-217 | when work on a node stops, all is well exactly if what it needs is on its way and it waits for something |
| `TrieSync.FlushedRequired` | src/mjoy.io/trie/sync.go:224-236 | what a written entry refers to was written before it or was there |
| `SyncedTrie.FlushedMet` | src/mjoy.io/trie/sync.go:224-236 | writing the batch in order of completion keeps every stored node with all it needs, references and what its leaves name |
| `SyncedTrie.HarmlessClosed` | src/mjoy.io/trie/sync.go:259-316 | in such a store a stored root has its whole tree stored, unless a node of it was taken as raw with something missing below it |
| `SyncedTrie.ClosedHarmless` | src/mjoy.io/trie/sync.go:137-164 | conversely, a tree that is stored as a whole has no such node |
| `SyncedTrie.ClearHarmless` | src/mjoy.io/trie/sync.go:137-164 | a tree none of whose nodes was there as raw or asked for as raw has no such node |
| `SyncedTrie.Run` | src/mjoy.io/trie/sync.go:90-338 | over any run of requests, deliveries, refused deliveries, full and failed flushes the invariants hold, every trie asked for is known or pending, only delivered data is ever raw, and only what was asked for as a raw entry or is named as raw by a delivered leaf; only a rejected leaf ends the run |
| `SyncedTrie.NothingPending` | src/mjoy.io/trie/sync.go:178-241 | with nothing pending the whole of every trie asked for is in batch and database together, exactly if none of its nodes was taken as raw with something missing below it, and so whenever nobody asked for one of its nodes as raw |
| `SyncedTrie.LeafNamed` | src/mjoy.io/trie/sync.go:285-295 | in a trie stored as a whole, what a leaf names is stored, if the node with the leaf was taken with the callback |
| `SyncedTrie.LeafComplete` | src/mjoy.io/trie/sync.go:178-316 | with nothing pending, raw entries named by leaves of a trie asked for are there, and every trie named by them is there as a whole exactly if none of its nodes was taken as raw with something missing below it, and so whenever nobody asked for one of its nodes as raw |
| `SyncedTrie.NodeOneLeaf` | src/mjoy.io/trie/sync.go:267-287 | every node of a trie has at most one value child |
| `SyncedTrie.RejectedLeaf` | src/mjoy.io/trie/sync.go:204-208 | a node whose leaf is rejected stays with its data, waits for nothing, and the scheduler is no longer consistent |
| `SyncedTrie.RawNode` | src/mjoy.io/trie/sync.go:190-195 | a raw request answered by a node with an unknown child leaves a store that is not closed |
| `SyncedTrie.OpenSynced` | src/mjoy.io/trie/sync.go:224-241 | with nothing pending, writing the batch makes every trie asked for open with its full contents; it is retrievable unless one of its nodes was taken as raw with something missing below it, and so whenever nobody asked for one as raw |
| `StateView.UndoReset` | src/mjoy.io/core/state/journal.go:88-90 | putting the shelved account back undoes a reset |
| `StateView.UndoWord` | src/mjoy.io/core/state/journal.go:123-125 | setting the previous word undoes a storage change, zero words included |
| `StateView.UndoLog` | src/mjoy.io/core/state/journal.go:131-139 | dropping the last log of the transaction undoes an added log, and the key with the last one |
| `StateView.ChainNext` | src/mjoy.io/core/state/statedb.go:480-506 | a journalled change extends the chain of views that undoing walks back |
| `StateView.ChainUndo` | src/mjoy.io/core/state/statedb.go:498-502 | undoing the last entry gives the view before it and a chain for the rest |
| `StateDB.StateDB.GetStateObject` | src/mjoy.io/core/state/statedb.go:347-373 | loading an account from the trie shows nothing; no object means the account is not seen |
| `StateDB.StateDB.CreateObject` | src/mjoy.io/core/state/statedb.go:396-407 | a fresh account is seen at the address; an account that was there is shelved unchanged |
| `StateDB.StateDB.CreateAccount` | src/mjoy.io/core/state/statedb.go:419-424 | a fresh account with the old balance is seen at the address and the address is marked for the trie, and nothing else changes |
| `StateDB.StateDB.SetBalance` | src/mjoy.io/core/state/statedb.go:275-280 | the balance seen at the address is set, the account being created if need be, the address is marked for the trie, and nothing else changes |
| `StateDB.StateDB.AddBalance` | src/mjoy.io/core/state/statedb.go:260-265 | the balance seen grows by the amount and the address is marked for the trie; an amount of zero marks an empty account and shows nothing else |
| `StateDB.StateDB.SubBalance` | src/mjoy.io/core/state/statedb.go:268-273 | the balance seen shrinks by the amount and the address is marked for the trie, unless the amount is zero |
| `StateDB.StateDB.SetNonce` | src/mjoy.io/core/state/statedb.go:282-287 | the nonce seen at the address is set, the address is marked for the trie, and nothing else changes |
| `StateDB.StateDB.SetCode` | src/mjoy.io/core/state/statedb.go:289-294 | code and code hash seen at the address are set, the address is marked for the trie, and nothing else changes |
| `StateDB.StateDB.SetState` | src/mjoy.io/core/state/statedb.go:296-301 | one storage word seen at the address is set, the address is marked for the trie, and nothing else changes |
| `StateView.WordPut` | src/mjoy.io/core/state/state_object.go:193-212 | after a word is set it reads as set, zero included, and every other word as before |
| `StateDB.StateDB.GetState` | src/mjoy.io/core/state/statedb.go:228-234 | the word read is the one seen, through cache and storage trie; caching shows nothing |
| `StateDB.StateDB.Suicide` | src/mjoy.io/core/state/statedb.go:308-322 | the account seen is marked as ended with balance zero, and the address is marked for the trie; a missing account is left alone |
| `StateDB.StateDB.AddLog` | src/mjoy.io/core/state/statedb.go:122-131 | the log is appended under the current transaction with the next index |
| `StateView.LogAppended` | src/mjoy.io/core/state/statedb.go:122-131 | the log is the last of its transaction, and nothing else changes but the number of logs |
| `StateDB.StateDB.AddPreimage` | src/mjoy.io/core/state/statedb.go:146-153 | a preimage is kept the first time only |
| `StateDB.StateDB.AddRefund` | src/mjoy.io/core/state/statedb.go:160-163 | the refund counter grows modulo 2 to the 64 |
| `StateDB.StateDB.Snapshot` | src/mjoy.io/core/state/statedb.go:480-485 | a new id stands for what is seen now; earlier ids keep theirs |
| `StateDB.StateDB.UndoEntry` | src/mjoy.io/core/state/journal.go:83-143 | undoing an entry on the objects is undoing it on the view |
| `StateDB.StateDB.RevertToSnapshot` | src/mjoy.io/core/state/statedb.go:488-506 | everything seen is as when the id was taken; exactly the ids from it on are gone, the earlier ones still stand for what they stood for; marks for the trie are lost only of addresses whose touch is undone; an invalid id is refused with nothing changed |
| `StateDB.Search` | src/mjoy.io/core/state/statedb.go:490-492 | the search finds the first revision with an id not below the one asked for |
| `StateDB.StateObject.UpdateTrie` | src/mjoy.io/core/state/state_object.go:214-228 | the dirty words are written to the storage trie, zero words removed |
| `StateDB.WordsFlushed` | src/mjoy.io/core/state/state_object.go:214-228 | writing cached words to the storage trie shows nothing |
| `StateDB.CleanWords` | src/mjoy.io/core/state/state_object.go:214-228 | when no word is left to be written, the storage trie holds the words seen |
| `StateDB.StateDB.Finalise` | src/mjoy.io/core/state/statedb.go:515-527 | dirty accounts that ended or came to nothing are gone, all else is seen as before, refund is zero, and no id is valid any more; the trie holds what is seen of an account, storage words included, exactly if the account was dirty or the trie held it already, and so for every account that did not lose its mark |
| `StateDB.StateDB.MarkDirty` | src/mjoy.io/core/state/state_object.go:138-157 | an object enters the dirty set the first time it changes, and only then |
| `StateDB.StateDB.AllPersisted` | src/mjoy.io/core/state/statedb.go:515-527 | if the trie holds what is seen of every dirty account, it holds what is seen of every account that has not lost its mark |
| `StateView.SweptAt` | src/mjoy.io/core/state/statedb.go:515-527 | an account goes exactly if it is dirty and ended, or dirty without nonce, balance and code; nothing else changes |
| `StateDB.LostMark` | src/mjoy.io/core/state/journal.go:102-109 | an empty account is touched, the touch is undone, its balance is set, and finalising does not write it |
| `Balances.CreditEffect` | src/mjoy.io/core/stateprocessor/statetransition.go:165-185 | crediting one account changes the sum of balances by the amount and no other balance or nonce |
| `Balances.SweptEffect` | src/mjoy.io/core/state/statedb.go:515-527 | clearing empty accounts changes no balance, no nonce and no sum |
| `StateTransition.TransitionDb` | src/mjoy.io/core/stateprocessor/statetransition.go:127-188 | a message is refused for the stated reason with nothing changed but that the sender exists, or is applied in full |
| `StateTransition.TransferEffect` | src/mjoy.io/core/stateprocessor/statetransition.go:149-185 | an applied message keeps the sum of balances, moves value and fee whoever coincides, and raises the sender's nonce by one |
| `StateTransition.FeeBounds` | src/mjoy.io/core/stateprocessor/statetransition.go:179-182 | the fee is a thousandth of the value, rounded down, and at least one |
| `StateTransition.RefusedExactly` | src/mjoy.io/core/stateprocessor/statetransition.go:108-164 | a message is accepted exactly if it is the sender's next, has a recipient and the sender can pay value and fee; the first condition that fails is reported |
| `StateTransition.TransferNonNegative` | src/mjoy.io/core/stateprocessor/statetransition.go:155-165 | only the recipient's balance can go below zero, exactly if its balance and gain do; never for a value that is not negative |
| `StateTransition.NegativeValue` | src/mjoy.io/core/stateprocessor/statetransition.go:155-165 | a negative value passes the balance check and drives the recipient below zero |
| `StateTransition.ApplyTransaction` | src/mjoy.io/core/stateprocessor/stateprocessor.go:96-139 | a transaction is refused as its message is, or applied and the accounts that ended or came to nothing are cleared; no participant that came to nothing is seen; the trie holds what is seen of every account that did not lose its mark; with no account ended its effect is that of its message |
| `StateTransition.Finalize` | src/mjoy.io/consensus/empty_engine.go:59-64 | the coinbase receives 5 times 10 to the 18 and, with no account ended, the sum of balances grows by it; the trie holds what is seen of every account that did not lose its mark |
| `StateTransition.Process` | src/mjoy.io/core/stateprocessor/stateprocessor.go:63-90 | each message is accepted in its turn and applied, or the block is refused for the reason of the first that is not; starting with no account ended, an accepted block changes the sum of balances by the reward alone, every balance by what its messages move, every nonce by the messages sent; nonces come in sequence; no balance goes below zero if no value does; no account loses its mark, and the trie holds what is seen of every account that has not lost it |
| `ChainData.AncestorPrefix` | src/mjoy.io/core/blockchain/headerChain.go:143-149 | below a common block two chains are the same |
| `HeaderChain.HeaderChain.WriteHeader` | src/mjoy.io/core/blockchain/headerChain.go:123-168 | the index is exactly the ancestor chain of the current header after every write; the head moves exactly for a greater number, and a side write leaves the index alone |
| `HeaderChain.HeaderChain.Rewrite` | src/mjoy.io/core/blockchain/headerChain.go:137-149 | the rewriting loop ends where the chains meet and leaves the index of the new chain |
| `HeaderChain.HeaderChain.SetHead` | src/mjoy.io/core/blockchain/headerChain.go:343-374 | the head becomes the ancestor at the lower of the two numbers, the index its chain, exactly the headers above are deleted; the store stays closed exactly if no header that stays stood on one that goes |
| `HeaderChain.Orphan` | src/mjoy.io/core/blockchain/headerChain.go:343-374 | with two headers on one, rewinding below them leaves the one off the chain without its parent |
| `ChainIndex.NumberedOver` | src/mjoy.io/core/blockchain/blockchain.go:1113-1123 | inserting a branch that reaches higher gives exactly the index of its top |
| `ChainIndex.Switch` | src/mjoy.io/core/blockchain/blockchain.go:1113-1130 | writing the new branch and deleting what only the old one had gives the new chain's transaction index, exactly if nothing deleted also occurs below the fork |
| `ChainIndex.IndexHolds` | src/mjoy.io/core/blockchain/db_operate.go:462-481 | without repeats every transaction of the chain is indexed at its block and position |
| `ChainIndex.IndexOnly` | src/mjoy.io/core/blockchain/db_operate.go:462-481 | nothing but transactions of the chain is indexed |
| `BlockChain.Meet` | src/mjoy.io/core/blockchain/blockchain.go:1072-1101 | both branches are walked down to the block they share; a branch whose blocks are all stored is always found |
| `BlockChain.BlockChain.Insert` | src/mjoy.io/core/blockchain/blockchain.go:467-489 | the block becomes head and is numbered; the other heads follow exactly if it was not on the index |
| `BlockChain.BlockChain.WriteTxLookupEntries` | src/mjoy.io/core/blockchain/db_operate.go:462-481 | the loop writes one entry for each transaction of the block |
| `BlockChain.BlockChain.DeleteDifference` | src/mjoy.io/core/blockchain/blockchain.go:1124-1130 | exactly the entries deleted and not added again are removed |
| `BlockChain.BlockChain.Reorg` | src/mjoy.io/core/blockchain/blockchain.go:1049-1143 | done exactly if the branch leads to stored blocks down to the genesis, and nothing changes otherwise; the index becomes the chain of the new block; what only the old branch had leaves the transaction index, which stays exact exactly if nothing of that occurs below the fork |
| `BlockChain.BlockChain.WriteBlockAndState` | src/mjoy.io/core/blockchain/blockchain.go:783-839 | over any run the index is the chain of the current block and its blocks are stored; a block is written to the side exactly if its number is not greater, refused exactly if its branch is not stored, and else becomes the head; side writes change neither index; without repeats the transaction index is exact |
| `BlockChain.LostEntry` | src/mjoy.io/core/blockchain/blockchain.go:1113-1130 | a transaction below the fork that the old branch repeats loses its entry when the branch is left, though its block stays in the chain |
| `Compress.ComputeEncode` | src/mjoy.io/common/bitutil/compress.go:75-101 | the recursive loop computes the encoding |
| `Compress.ComputeDecodePartial` | src/mjoy.io/common/bitutil/compress.go:134-174 | the recursive loop computes the decoding, with its four failures |
| `Compress.BitsetMarks` | src/mjoy.io/common/bitutil/compress.go:87-96 | the bitset has a bit exactly at each non-zero byte |
| `Compress.MarksAt` | src/mjoy.io/common/bitutil/compress.go:89-96 | byte i is marked by bit 7 - i mod 8 of byte i / 8, counted from the lowest, and the bits beyond the data are clear |
| `Compress.DecodeEncodePartial` | src/mjoy.io/common/bitutil/compress.go:75-174 | what is encoded is decoded to itself and exactly its bytes are consumed, whatever follows, unless it is all zeros |
| `Compress.DecodeExactly` | src/mjoy.io/common/bitutil/compress.go:119-174 | decoding succeeds with a value exactly on that value's encoding, so each value has one accepted encoding |
| `Compress.RoundTrip` | src/mjoy.io/common/bitutil/compress.go:64-116 | compression never lengthens, and decompression to the original length undoes it |
| `Compress.DecompressExactly` | src/mjoy.io/common/bitutil/compress.go:106-116 | decompression accepts exactly plain data of the target length and shorter encodings |
| `Transport.ReadAppended` | src/mjoy.io/communication/p2p/msgpx.go:569-570 | a message code is read back from its MessagePack form, whatever follows |
| `Transport.CodeForm` | src/mjoy.io/communication/p2p/msgpx.go:569-570 | a code below 128 is one byte; others are the marker of the shortest of four widths and the bytes, highest first |
| `Transport.StreamTwice` | src/mjoy.io/communication/p2p/msgpx.go:591-659 | the key stream undoes itself at the same position |
| `Transport.XorBitsAt` | src/mjoy.io/communication/p2p/msgpx.go:697-700 | each bit of the exclusive or tells whether the two bits differ |
| `Transport.FrameRW.WriteMsg` | src/mjoy.io/communication/p2p/msgpx.go:568-620 | the wire bytes and the new stream position and MAC are those of the frame; a message that does not fit is refused with nothing changed |
| `Transport.FrameRW.ReadMsg` | src/mjoy.io/communication/p2p/msgpx.go:622-690 | what is read, each failure, and the stream position and MAC after it, failed or not, are those of the frame; a message is read only if the header's tag and the frame's tag are the first halves of the sums of what the MAC took in, and a wrong header tag is refused |
| `Transport.FrameLockstep` | src/mjoy.io/communication/p2p/msgpx.go:568-712 | a frame is read back as it was written, whatever its padding and whatever follows, and both ends are in step after it |
| `Transport.ReadsFramed` | src/mjoy.io/communication/p2p/msgpx.go:622-659 | a body is read exactly if a frame of it stands there: three bytes of size, both tags over what precedes them, content that decrypts to the body, rounded up to 16 bytes |
| `Transport.ReseedTags` | src/mjoy.io/communication/p2p/msgpx.go:694-704 | a tag is the first half of the sum after the MAC took in the encryption of its own sum under the seed |
| `Transport.FrameFill` | src/mjoy.io/communication/p2p/msgpx.go:568-620 | what is written is such a frame, with c2 80 80 and zeros after the size, and zeros after the body |
| `Transport.HeaderRefused` | src/mjoy.io/communication/p2p/msgpx.go:628-632 | the header is refused exactly if its tag is not the one that the MAC gives |
| `Transport.TagRefused` | src/mjoy.io/communication/p2p/msgpx.go:622-657 | a written frame with any other bytes for a tag is refused for the first wrong tag |
| `Transport.ParseBody` | src/mjoy.io/communication/p2p/msgpx.go:661-689 | code and payload are recovered, compressed or not |
| `Transport.BacklogWrite` | src/mjoy.io/communication/p2p/msgpx.go:568-620 | a written message joins the frames still to be read |
| `Transport.BacklogRead` | src/mjoy.io/communication/p2p/msgpx.go:622-690 | the next frame is read as its message, and the rest stay readable |
| `Transport.Converse` | src/mjoy.io/communication/p2p/msgpx.go:568-690 | any sequence of fitting messages arrives as it was sent, and the ends are in step again |
| `Transport.Connect` | src/mjoy.io/communication/p2p/msgpx.go:243-272 | the two ends of a handshake derive the same keys from their own secrets and start with mirrored MACs, in both directions |
| `Transport.SecretsAgree` | src/mjoy.io/communication/p2p/msgpx.go:243-272 | both ends derive the same cipher and MAC keys, and each takes in what the other gives out |
| `Transport.SecretsSeeded` | src/mjoy.io/communication/p2p/msgpx.go:257-271 | either MAC starts with the MAC key under the nonce of the end that reads it and the packet of the end that writes it |
| `Protocols.SortCaps` | src/mjoy.io/communication/p2p/protocol.go:82-88 | the capabilities are permuted into order of name and version |
| `Protocols.MatchProtocols` | src/mjoy.io/communication/p2p/peer.go:313-335 | one protocol runs for each shared name, with the highest shared version, and ranges follow one another in order of names |
| `Protocols.RangesFollow` | src/mjoy.io/communication/p2p/peer.go:315-329 | ranges start at 16, are contiguous and do not overlap |
| `Protocols.OneResponsible` | src/mjoy.io/communication/p2p/peer.go:365-372 | at most one protocol is responsible for a code |
| `Protocols.GetProto` | src/mjoy.io/communication/p2p/peer.go:365-372 | the search finds a protocol whose range holds the code, exactly if there is one |
| `Protocols.Agreement` | src/mjoy.io/communication/p2p/peer.go:313-335 | two peers that match each other's announcements, in any order and with repeats, select the same protocols and so the same offsets |
| `Protocols.Negotiate` | src/mjoy.io/communication/p2p/peer.go:313-335 | both sides build one and the same table, offsets included |
| `Protocols.Route` | src/mjoy.io/communication/p2p/peer.go:365-411 | a code written by a protocol reaches the protocol of the same name on the other side as the same local code |
| `Dial.CountDyn` | src/mjoy.io/communication/p2p/dial.go:179-189 | the loop counts the dynamic entries |
| `Dial.DialState.AddDial` | src/mjoy.io/communication/p2p/dial.go:168-176 | a node is dialled exactly if nothing forbids it, and within the budget |
| `Dial.DialState.AddStatics` | src/mjoy.io/communication/p2p/dial.go:195-205 | every static node is dialled or may not be; exactly those that never can be dialled are dropped; the dynamic budget is left alone |
| `Dial.DialState.AddBootnode` | src/mjoy.io/communication/p2p/dial.go:206-217 | with no peers after the fallback interval the first bootnode is tried and moved to the back, otherwise nothing happens |
| `Dial.DialState.AddRandom` | src/mjoy.io/communication/p2p/dial.go:218-228 | exactly the first table nodes, as many as half of what is needed, are tried, within the budget |
| `Dial.DialState.AddLookup` | src/mjoy.io/communication/p2p/dial.go:229-237 | lookup results are tried in order until they run out or the last dial needed was made, and exactly those tried are dropped |
| `Dial.DialState.NewTasks` | src/mjoy.io/communication/p2p/dial.go:162-253 | dynamic peers and dials together stay within the budget; every dial is of a distinct node, not dialled, connected, self, barred or in unexpired history, and of a static node or of a candidate; with no peers for more than 20 seconds after the first call and dials needed the first bootnode is tried and moved to the back, and otherwise the bootnodes stay; the first table nodes are tried for half of what is then needed; no static node and no lookup result is passed over; while dials are needed a lookup is running; a wait is added exactly if nothing else keeps the loop going |
| `Dial.DialState.TaskDone` | src/mjoy.io/communication/p2p/dial.go:280-289 | a finished dial leaves the dialled set and enters the history; a finished lookup leaves its results |
| `Dial.ExpiredKeeps` | src/mjoy.io/communication/p2p/dial.go:405-409 | exactly the unexpired dials stay in the history |
| `Dial.Server.ScheduleTasks` | src/mjoy.io/communication/p2p/server.go:505-513 | tasks in flight are exactly the nodes being dialled, at most sixteen run, none is lost, the budget holds; with room left nothing is queued and every static node was tried; nothing runs only if there is no history to wait for |
| `Dial.Server.StartTasks` | src/mjoy.io/communication/p2p/server.go:494-504 | tasks are started in order while there is room, and none is lost |
| `Dial.Server.TaskDone` | src/mjoy.io/communication/p2p/server.go:542-548 | a finished task leaves the running ones, a dial is remembered, and the budget holds |
| `Dial.Server.AddDialled` | src/mjoy.io/communication/p2p/server.go:549-586 | a dialled peer is added under its task's flag exactly if it shares a protocol, is not connected already, is not this node, and there is room or it is trusted or static; the budget holds, and the peers that are neither trusted nor static are never more than the limit |
| `Dial.Server.AddInbound` | src/mjoy.io/communication/p2p/server.go:549-586 | an inbound peer is added under the same conditions, brings the number above the limit only if it is trusted, and never counts against the budget |
| `Dial.Server.DropPeer` | src/mjoy.io/communication/p2p/server.go:587-591 | a dropped peer leaves the peers and the budget holds |

## Left out

Contracts that say less than the code could be asked for:

- Proof.VerifyProof: does not return the number of proof nodes read; the source's loop has no bound, the model's runs for a given number of rounds, of which a content-addressed set needs no more than the key has nibbles.
- Trie.Trie.TryGet: a missing node is reported by its hash alone, not by the path at which it was met.
- TrieSync.TrieSync.Process: requires that each item carries the hash of its data, which its callers check when data arrives; a delivered top-level value or hash, on which the source panics, is refused as not a node.
- TrieSync.TrieSync.AddSubTrie: a parent given must be a pending request with data, as it is when the leaf callback adds it; the source panics for a parent that is not pending.
- TrieSync.TrieSync.AddRawEntry: the same requirement on a given parent.
- TrieSync.TrieSync.Children: the leaf callback is that of the state synchronisation: a leaf is rejected or yields a list of sub-tries (without callback) and raw entries.
- TrieSync.TrieSync.Schedule: the priority queue, depths and the order in which missing hashes are handed out are not modelled.
- StateDB.StateDB.RevertToSnapshot: bounds the set of dirty accounts, by the touches undone, and does not give it exactly; an id that is not valid, on which the source panics, is refused.
- StateDB.StateDB.Finalise: is the form that deletes empty accounts, which is the only one the node uses.
- StateDB.StateDB.GetStateObject: the account trie and storage tries are finite maps, without read errors and without the hashing of keys.
- StateDB.StateDB.CreateAccount: sets the carried balance before the journal entry is appended; no caller can observe the order.
- StateTransition.ApplyTransaction: receipts, bloom filters and the recovery of senders from signatures are not modelled; contract creation is refused as in the source.
- NodeIterator.NodeIterator.Next: skipping a subtree is for an iterator that stands on a node or has not started, not for one that a missing node stopped.
- Difference.DifferenceIterator.Next: is for tries without missing nodes; the source takes a missing node of the first trie for its end.
- HeaderChain.HeaderChain.WriteHeader: requires a header one above a stored parent, which the source's comment asks of its callers, or the genesis header.
- BlockChain.BlockChain.WriteBlockAndState: the genesis block has no transactions, the state is taken to be written, and a child of the current block has the next number.
- Transport.FrameRW.WriteMsg: the message size equals the payload length and the frame body is shorter than 2 to the 32, so that the length conversion of the source does not wrap; cipher, MAC and snappy are functions of which only inversion and output lengths are used.
- Transport.SecretsSeeded: says of the derived keys only where they enter the MACs; that the chain of sums leading to them is the one of the source is the definition of the model.
- Transport.Connect: the exchange of the handshake packets is not modelled; both ends hold each other's ephemeral public keys, the nonces and the packets.
- Protocols.MatchProtocols: offsets are unbounded, so wrap-around of 64-bit codes is not modelled; capabilities are sorted as a value, not in place.
- Dial.DialState.NewTasks: the random nodes of the discovery table and the current time are parameters, history is an unordered list instead of a heap, and the wait task carries no duration.

Not modelled at all:

- Keccak, AES, ECIES, ECDSA, snappy and MessagePack as byte formats, apart from the integer form of message codes.
- The iterator's parent hash, the union iterator and SecureTrie.
- StateDB copying, resetting, writing to a trie (`CommitTo`), iterating over storage, and reuse after a commit.
- Caches, failing database writes, crashes between writes, events, locks, logging and metrics.
- Fast synchronisation, validation and insertion of whole header chains, `FindCommonAncestor` and the chain indexer.
- Subprotocol goroutines and channels, sockets, dial resolution and timers.
- The unconfirmed block ring, wallets, RPC, command line and configuration, which would only add easy members.
