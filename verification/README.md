# A verified model of the obtcd node core

obtcd is a full node in the btcd family. This project models four of its components in
Dafny and proves what they keep:

- **Chain selection and reorganization.** The block tree with cumulative work and status
  flags, the best chain, the unspent outputs, the spend journal, the two height buckets, the
  best-state snapshot and the stored rows, under `maybeAcceptBlock`, `InvalidateBlock`,
  `ReconsiderBlock` and restarts.
- **Block index and persistence.** Skip-pointer search, median time past, the key-ordered
  reload of the tree and the unframed spend journal codec.
- **Address manager.** Reference counts, new buckets, tried lists and counters under
  insertion, eviction, promotion, saving and loading.
- **Caches and handlers.** The filter checkpoint cache, the two notification queues, the
  watch indexes and the rescan loop.

## How it is put together

Each component has a specification on values (functions from state to state), lemmas about
it, and the imperative code beside it: classes and methods whose contracts equate the new
state with the specification applied to the old one. The lemmas are about all inputs, all
runs or all reachable states.

| files | content |
|---|---|
| `Base`, `BlockNodes` | shared types; nodes as values that contain their parent and skip pointer |
| `SkipSearch`, `MedianTime` | ancestor search with its exact cost; median time past |
| `Ledger`, `UnspentOutputs`, `UtxoView`, `UtxoViewpoint` | what a block does to the unspent outputs, the journal entry, undo; what an unspent output is and which blocks fit, said of transactions; the loops that do it, on the plain set and on a view that keeps spent entries |
| `ChainModel` | the chain state and every step on it |
| `ChainInvariants`, `ChainReorg`, `ChainSelect`, `ChainAccept`, `ChainControl` | what the steps keep and where they lead |
| `HeaviestChain`, `ChainRuns`, `ChainRestarts`, `ChainExamples` | runs, optimality, restarts, and runs on which a promise fails |
| `BlockChain`, `ChainLoops`, `ChainQueries` | the chain object, what its loops keep, and its hash list queries |
| `IndexStore`, `Compression`, `ScriptCompression`, `SpendJournal`, `StoredFormats` | stored rows and bytes, and the formats read off the bytes |
| `AddrBook`, `AddrPeers`, `AddrFiles`, `AddrManager`, `AddrRuns` | the address manager |
| `FilterCheckpoints`, `CheckpointExamples`, `NotificationQueues`, `Watches`, `NotificationManager`, `Rescan`, `RescanProgress` | caches and handlers |

The chain invariant `ChainInvariants.Inv` says: the index is one tree rooted at genesis and
found by hash; unspent outputs, journal, buckets, snapshot and saved state are what
replaying the best chain from genesis gives; a node marked valid, in memory or in its row,
stands on a chain every block of which could be connected; rows differ from memory only for
dirty nodes; and every best chain node is known valid and none known invalid.

Verdicts of code outside the model are inputs: `check` answers for `checkConnectBlock`,
`reap` for the global prefix check, `context` for `checkBlockContext`. Each step of a run may
come with different answers. Random draws, bucket hashes, `isBad`, public key parsing,
address extraction and filter headers are inputs in the same way. Loops over Go maps may
take any order; where the order shows, the result is stated for every order.

Where the code and its documentation differ, the model follows the code:

- `InvalidateBlock` promises to invalidate all descendants. For a best chain block it marks
  those on the best chain and then, at most, those on the way to the one tip it tries next;
  `DescendantsInvalidIff` says exactly when the promise holds of the whole call, and
  `DescendantCanBeMissed` is a state in which it fails whichever tip is tried.
- A prefix check that fails in the middle of a reorganization can leave the chain on less
  work than it had, and a check that ends with an error about no rule can leave a heavier
  block without a verdict; `HeaviestIff` says exactly when, from the inputs of the step.
- Compressed amounts are cut to 64 bits, so a large amount can come back changed from the
  spend journal; `JournalRoundTrip` says exactly when one does not.
- `OnGetCFCheckpt` can leave entries of two branches in its cache when a lookup fails and
  `append` had room; `FailedLookupIff` says exactly when, and `CacheCanMislead` is an instance.
- `scanBlockChunks` speaks of recovering from reorganizations, but `BlockByHash` reports a
  block that left the main chain with another error than the one recovery looks for, so such
  a rescan ends with an error (`LostBlockEnds`, with `ReorgIsAnError` as an instance);
  `RecoveryIff` says exactly when recovery runs.

## Model

| member | source | states |
|---|---|---|
| `SkipSearch.Ancestor` | blockchain/blockindex.go:197-221 | returns exactly the node that following parents reaches at the height, nothing only when the height is out of range, in exactly `Hops` iterations; node height is the termination measure |
| `SkipSearch.HopStaysOnPath` | blockchain/blockindex.go:197-221 | every hop of the search lands on the parent path, whichever of the two pointers it takes |
| `SkipSearch.InitBlockNode` | blockchain/blockindex.go:111-127 | the node built is well built, and its skip pointer lies on the parent path |
| `SkipSearch.NewNodeWellBuilt` | blockchain/blockindex.go:184-189 | a node built on a well-built parent is well built and its parent path is the parent's path plus itself |
| `SkipSearch.IsAncestor` | blockchain/blockindex.go:278-297 | true exactly for proper ancestors |
| `SkipSearch.SearchIsQuadratic` | blockchain/blockindex.go:172-221 | from any height below 2^b to any target, the number of iterations is at most (b*b + 5*b + 4) / 2 |
| `SkipSearch.HopsFromPower` | blockchain/blockindex.go:172-221 | from height 2^k no target needs more iterations than the sum `WorstHops(k)` of the costs of the crossings below it |
| `SkipSearch.WorstHopsFormula` | blockchain/blockindex.go:172-221 | that sum in closed form: 3m(m + 1)/2 for k = 2m, and m + 1 more for k = 2m + 1 |
| `SkipSearch.SearchFrom29` | blockchain/blockindex.go:176-182 | from height 2^29 at most 330 iterations are needed, and the search for height 1 needs all 330 |
| `MedianTime.CalcPastMedianTime` | blockchain/blockindex.go:312-345 | the method computes the median of the sorted window of up to eleven timestamps |
| `MedianTime.MedianByRank` | blockchain/blockindex.go:312-345 | the median is characterised by rank: v is the median exactly when at most half the window is below v and more than half is not above it |
| `MedianTime.WindowIsLastEleven` | blockchain/blockindex.go:312-330 | the window is that of the last eleven blocks, or of all of them when there are fewer, newest first |
| `MedianTime.ChildMedian` | blockchain/blockindex.go:312-345 | a child whose timestamp exceeds the parent's median has a median no smaller than the parent's |
| `MedianTime.MedianNeverDecreases` | blockchain/blockindex.go:312-345 | along any chain whose blocks come after their parents' medians, the median never decreases, short and even windows included |
| `Ledger.UndoAfterApply` | blockchain/utxoviewpoint.go:367-495 | undoing a block from its journal entry restores the unspent outputs except exactly those the block created over unspent ones |
| `Ledger.UndoInvertsApplyIff` | blockchain/utxoviewpoint.go:367-495 | undo inverts apply if and only if the block overwrites no unspent output; spends of outputs created in the same block are covered |
| `Ledger.UndoReplay` | blockchain/utxoviewpoint.go:367-495 | undoing the last block of a sound chain gives the replay of the chain below it |
| `Ledger.JournalHeights` | blockchain/utxoviewpoint.go:446-490 | no journal entry of a sound chain has height zero, so the legacy lookup is never needed |
| `UnspentOutputs.TxOnOutput` | blockchain/utxoviewpoint.go:206-316 | what a transaction does to any one output: its own spendable outputs are there with amount, script, height and coinbase flag, what it consumes is gone, everything else stays |
| `UnspentOutputs.OutputOrigin` | blockchain/utxoviewpoint.go:206-335 | every unspent output of a chain is output k of some transaction of some block above genesis, with that output's amount and script, the block's height and whether the transaction is the coinbase, and nothing after that transaction touches it |
| `UnspentOutputs.LastDecides` | blockchain/utxoviewpoint.go:206-335 | the last transaction of the chain that touches an output decides: created there, it is unspent and as created; only consumed there, it is gone |
| `UnspentOutputs.FitsIff` | blockchain/utxoviewpoint.go:275-335 | the set can take a block if and only if the inputs of each transaction after the coinbase are all different and available to it, from before the block or from an earlier transaction, and no unspent output is created again before it is consumed |
| `UnspentOutputs.JournalHolds` | blockchain/utxoviewpoint.go:286-306 | the details collected over a block are, for every input of every transaction in turn, the output that input consumes as it is at that moment |
| `UtxoViewpoint.Viewpoint.ConnectTransaction` | blockchain/utxoviewpoint.go:275-316 | fails exactly when some input has no entry, spent or not; otherwise every entry is named: the outputs with amount, script, height and coinbase flag, the inputs marked spent, the others as they were, and the detail collected for input j is that input's entry |
| `UtxoViewpoint.Viewpoint.ConnectTransactions` | blockchain/utxoviewpoint.go:323-335 | the same over a whole block, the coinbase first; and where the plain set of unspent outputs can take the block, the unspent part of the view and the details are those of the plain set, of which `OutputOrigin` and `JournalHolds` speak |
| `UtxoViewpoint.PresentIff` | blockchain/utxoviewpoint.go:275-316 | what the view accepts and the plain set does not are exactly the spends of an entry that is spent already |
| `UtxoViewpoint.MarkUnspent` | blockchain/utxoviewpoint.go:275-316 | whatever is spent, connecting changes the unspent part of a view as it changes the plain set |
| `UtxoViewpoint.Viewpoint.FetchEntryByHash` | blockchain/utxoviewpoint.go:340-361 | the first entry of the transaction in the view, and a stored one only if there is none |
| `UtxoViewpoint.Viewpoint.DisconnectTransaction` | blockchain/utxoviewpoint.go:380-490 | the two loops leave the unspent part of the view as undoing the transaction does, with the details given or, for legacy entries, completed |
| `UtxoViewpoint.Viewpoint.DisconnectTransactions` | blockchain/utxoviewpoint.go:367-495 | an error for a wrong number of details, and none for the right number without legacy entries; otherwise the unspent part of the view is the undo of the block, last transaction first |
| `ChainModel.VerifyTouchesStatus` | blockchain/chain.go:987-1148 | verification changes status flags and nothing else, whatever it finds |
| `ChainReorg.DetachKeeps` | blockchain/chain.go:873-935 | detaching down to any height succeeds and leaves unspent outputs, journal, both index buckets, snapshot and saved state those of the lower chain |
| `ChainReorg.AttachKeeps` | blockchain/chain.go:936-978 | attaching sound blocks stops exactly at the first block whose prefix check fails, with everything matching the block before it |
| `ChainReorg.UndoAllReplays` | blockchain/chain.go:1030-1078 | the view that verification undoes the detach list on is the replay of the fork point |
| `ChainReorg.VerifyStops` | blockchain/chain.go:987-1148 | verification stops at the first block that is not known valid and does not pass against the replay of its parent, and leaves exactly the flags that follow from that position |
| `ChainReorg.VerdictIs` | blockchain/chain.go:1092-1146 | the verdict on a block is fine if and only if the check is and its transactions fit the replay of the chain below it; it is missing exactly when that of the check is |
| `ChainReorg.ReorganizeOutcome` | blockchain/chain.go:873-978 | verify before mutate: either verification stopped and only flags moved, or every block passed and the chain ends below the first refused prefix check |
| `ChainSelect.ReorganizeNodesOutcome` | blockchain/chain.go:508-554 | a branch without a known invalid block gives the detach and attach lists; any other gives empty lists and marks only nodes off the best chain, the new block among them |
| `ChainSelect.ReorganizeKeepsInv` | blockchain/chain.go:873-978 | a reorganization to any clean branch keeps the whole invariant, however it ends |
| `ChainAccept.ConnectExtends` | blockchain/chain.go:1164-1255 | a block on the tip becomes the tip exactly when no error is returned; a rule error leaves it marked |
| `ChainAccept.VerificationStops` | blockchain/chain.go:1092-1146 | if verification hits a rule error: tip, unspent outputs, journal and index buckets are unchanged, the failing block is marked failed and every later one as having an invalid ancestor |
| `ChainAccept.PrefixCheckStops` | blockchain/chain.go:936-964 | if the prefix check fails at position i: the tip is the attach block before it or the fork, and the unspent outputs are the replay of that chain |
| `ChainAccept.TakeoverOutcome` | blockchain/chain.go:1256-1306 | a heavier, clean, passing branch takes over up to the first refused prefix check, whose verdict is returned |
| `ChainAccept.SideBlockOutcome` | blockchain/chain.go:1256-1306 | any other side block leaves the tip; the answer and the error in each case: no error for one that is not heavier or whose branch was refused, which alone is reported as on the main chain, and otherwise the verdict on the first block that does not pass |
| `HeaviestChain.AcceptKeepsInv` | blockchain/accept.go:24-94 | every accept step keeps the invariant, for any verdicts |
| `HeaviestChain.RefusedAnswer` | blockchain/accept.go:24-45 | a block that is not admitted changes nothing, is reported as off the main chain and gets an error: a rule error for a known hash, an unknown parent or a known invalid parent, and that of the contextual check otherwise; so an answer without error means the block is indexed |
| `HeaviestChain.AdmittedAnswer` | blockchain/accept.go:24-94 | an admitted block is indexed whatever comes back, the error is exactly that of its case (on the tip, on a lighter or refused branch, on a heavier one), and it is reported as on the main chain exactly if there is none and it extends the tip or is heavier |
| `HeaviestChain.AdmittedStored` | blockchain/accept.go:56-74 | an admitted block is one more node, with its data stored, and no other node loses a flag |
| `HeaviestChain.AcceptStaysHeaviest` | blockchain/chain.go:1164-1306 | an accept step whose inputs neither strand nor interrupt it keeps every heavier node behind a known invalid one and never loses work |
| `HeaviestChain.StrandedLoses` | blockchain/chain.go:944-950 | a stranded step does lose work and optimality |
| `HeaviestChain.InterruptedLoses` | blockchain/chain.go:1204-1306 | a step whose inputs interrupt it does leave its block overlooked: heavier than the tip, with nothing on its way known invalid |
| `HeaviestChain.InterruptedOutcome` | blockchain/chain.go:1164-1306 | the inputs that interrupt a step, case by case (on the tip, on a branch that passes, on any other clean branch), are exactly those for which an error about no rule comes back with the block heavier than the chain it left |
| `HeaviestChain.HeaviestIff` | blockchain/chain.go:1164-1306 | for all verdicts, accepting a block keeps the heaviest valid chain if and only if its inputs neither strand the chain, with a prefix check that fails after more work was detached than attached, nor interrupt it, with a check it needs that ends with an error about no rule |
| `ChainControl.TipAbove` | blockchain/blockindex.go:456-489 | every node off the best chain lies below some inactive tip |
| `ChainControl.ChosenIsHeaviest` | blockchain/chain.go:1930-1953 | the tip selected after an invalidation is not known invalid, and no node without children that is not known invalid has more work |
| `ChainControl.SideInvalidation` | blockchain/chain.go:1863-1894 | invalidating a side chain block makes it and every descendant in the index known invalid and touches nothing else |
| `ChainControl.InvalidateDetaches` | blockchain/chain.go:1896-1930 | invalidating a best chain block detaches it and everything above it without error and keeps the invariant |
| `ChainControl.DetachMarksExactly` | blockchain/chain.go:1896-1930 | which nodes are known invalid once the block is detached: those that were, and the best chain from the block up |
| `ChainControl.InvalidateMarksExactly` | blockchain/chain.go:1896-1967 | of the whole call, descendant by descendant: known invalid afterwards exactly if on the best chain, known invalid before, or on the way to the tip tried next with nothing known invalid in between |
| `ChainControl.DescendantsInvalidIff` | blockchain/chain.go:1831-1967 | of the whole call, for every tip its selection can end with and all verdicts: all descendants end up known invalid if and only if each unmarked one off the best chain lies on the way to that tip with nothing known invalid from it up |
| `ChainControl.SwitchOutcome` | blockchain/chain.go:1956-1967 | after detaching, the chain goes to the candidate tip exactly when its branch is clean and passes, up to the first refused prefix check; the error returned in each case |
| `ChainControl.SwitchTouchesBranch` | blockchain/chain.go:1956-1967 | switching to a tip, or failing to, changes flags on the branch of that tip only |
| `ChainRuns.InvalidateKeepsInv` | blockchain/chain.go:1836-1967 | invalidating any block keeps the invariant, for any order of the tips and any verdicts |
| `ChainRuns.InvalidateSide` | blockchain/chain.go:1863-1894 | of the whole call on a side chain block: no error, the same chain, the block and every descendant known invalid, and every other node's flags as they were |
| `ChainRuns.InvalidateMoves` | blockchain/chain.go:1896-1967 | of the whole call on a best chain block, for every tip its selection can end with: where the chain ends, and the error returned |
| `ChainRuns.ReconsiderFindsTip` | blockchain/chain.go:2003-2017 | the loop of ReconsiderBlock always finds a tip to reconsider |
| `ChainRuns.ReconsiderOutcome` | blockchain/chain.go:2024-2057 | where reconsidering a heavier tip leads: to it exactly when its branch passes verification, up to the first refused prefix check, whose verdict is returned |
| `ChainRuns.ReconsiderMoves` | blockchain/chain.go:1972-2057 | of the whole call, when the tip its loop ends with is heavier: the chain moves to it, up to the first refused prefix check, if and only if no block of its branch stays invalid after the marks are cleared and every one passes; otherwise the tip stays and no error is returned |
| `ChainRuns.ReconsiderStays` | blockchain/chain.go:1972-2033 | of the calls that move nothing: an error and no change for an unknown hash, neither for a known valid block, and for a tip that is not heavier no error, the same chain and no row written |
| `ChainRuns.ReconsiderKeepsInv` | blockchain/chain.go:1972-2057 | reconsidering any block keeps the invariant |
| `ChainRuns.ReconsiderClears` | blockchain/chain.go:1992-2057 | of the whole call, on every node off the branch tried next, or on every node when nothing heavier is tried: the block is no longer known invalid, a descendant is exactly if it failed on its own, and the verdict on every other node stands |
| `ChainRuns.ReconsiderUndoesInvalidate` | blockchain/chain.go:1863-2057 | invalidating a side branch block and then reconsidering it gives each of these nodes its flags back, except that validity has to be established again and inherited marks of blocks already invalid are gone; the chain is the same when nothing heavier is tried |
| `ChainRuns.ReachableInv` | blockchain/chain.go:1836-2057 | over every interleaving of accept, invalidate and reconsider steps from a fresh database: every best chain node is known valid and none known invalid, unspent outputs, journal, both buckets, snapshot and counts are those of replaying the best chain |
| `ChainRuns.HeaviestChainWins` | blockchain/chain.go:1164-1306 | over every run of accept steps whose inputs neither strand nor interrupt them, each node heavier than the tip has a known invalid node on its way, and the tip's work never decreases |
| `ChainRuns.SnapshotIsBest` | blockchain/chain.go:603-613 | in every state that keeps the invariant, field by field: hash, height and transactions are the tip's, the total is the sum over the best chain, and the median splits the timestamps of the last eleven blocks at their middle; the saved state agrees |
| `ChainRuns.JournalIsBestChain` | blockchain/chain.go:666-672 | the spend journal holds exactly the best chain blocks above genesis, each with the outputs it spends |
| `ChainRuns.JournalEntryIs` | blockchain/chain.go:666-672 | the entry of a best chain block keeps, for every input of every transaction in turn, the output it consumed, and nothing more |
| `ChainRuns.BucketsAreBestChain` | blockchain/chainio.go:880-913 | hash-to-height and height-to-hash are inverse to each other and cover exactly the best chain |
| `ChainExamples.WorkCanBeLost` | blockchain/chain.go:944-950 | a concrete run of three accepts, the last refused by a rule, after which the best chain has less work than a valid chain it left |
| `ChainExamples.BlockCanBeOverlooked` | blockchain/chain.go:1204-1237 | the first block on genesis, with a check that comes to no verdict: it stays heavier than the tip and not known invalid |
| `ChainExamples.DescendantCanBeMissed` | blockchain/chain.go:1831-1967 | a concrete run of four accepts after which invalidating a best chain block leaves a descendant not known invalid, for every tip the selection can end with and all verdicts |
| `BlockChain.BlockChain.constructor` | blockchain/chainio.go:1074-1168 | a fresh chain object is in the initial state and satisfies the invariant |
| `BlockChain.BlockChain.SetStatusFlags` | blockchain/blockindex.go:435-440 | adds the flag to one node, marks it dirty, and changes nothing else |
| `BlockChain.BlockChain.UnsetStatusFlags` | blockchain/blockindex.go:446-451 | removes the flag from one node, marks it dirty, and changes nothing else |
| `BlockChain.BlockChain.FlushToDB` | blockchain/blockindex.go:493-517 | every dirty row is written and the dirty set is emptied |
| `ChainLoops.SwitchView` | blockchain/chainview.go:116-148 | filling the view downward until a node is already in place gives the whole path to the new tip |
| `BlockChain.BlockChain.SetTip` | blockchain/chainview.go:157-161 | the view becomes the path to the node; nothing else changes |
| `BlockChain.BlockChain.Contains` | blockchain/chainview.go:227-229 | comparing with the view at the node's own height is membership in the path from genesis to the tip |
| `BlockChain.BlockChain.FindFork` | blockchain/chainview.go:292-322 | the last node shared by the best chain and the branch of the node |
| `BlockChain.BlockChain.GetReorganizeNodes` | blockchain/chain.go:508-554 | walking parents gives the same lists and marks as the specification by common prefixes |
| `BlockChain.BlockChain.ConnectBlock` | blockchain/chain.go:572-717 | the whole new state: rows, saved state, both buckets, journal, view and snapshot; what the snapshot then says is `SnapshotIsBest` |
| `BlockChain.BlockChain.DisconnectBlock` | blockchain/chain.go:723-847 | the whole new state after removing the tip; what the snapshot then says is `SnapshotIsBest` |
| `BlockChain.BlockChain.VerifyReorganizationValidity` | blockchain/chain.go:987-1148 | the loops over the detach and attach lists refine the recursive verification |
| `BlockChain.BlockChain.ReorganizeChain` | blockchain/chain.go:873-978 | verification, detach loop and attach loop together refine the reorganization the theorems are about |
| `BlockChain.BlockChain.ConnectBestChain` | blockchain/chain.go:1164-1306 | state, main chain answer and error of the step function the theorems are about |
| `BlockChain.BlockChain.MaybeAcceptBlock` | blockchain/accept.go:24-94 | keeps the invariant and refines the accept step, whose answers are `RefusedAnswer` and `AdmittedAnswer` |
| `BlockChain.BlockChain.InactiveTips` | blockchain/blockindex.go:456-489 | the two map walks return exactly the off-chain nodes without off-chain children |
| `BlockChain.BlockChain.InvalidateBranches` | blockchain/chain.go:1863-1894 | walking down from every inactive tip marks exactly the descendants not yet invalid |
| `BlockChain.BlockChain.BestTip` | blockchain/chain.go:1930-1953 | the selection loop ends with a tip not known invalid that none outweighs |
| `BlockChain.BlockChain.InvalidateBlock` | blockchain/chain.go:1836-1967 | keeps the invariant and refines the invalidate step for the tip its loop chose, of which `InvalidateSide` and `InvalidateMoves` say where it leads |
| `BlockChain.BlockChain.ClearBranches` | blockchain/chain.go:2003-2017 | clears exactly the descendants and always ends with a tip above the node |
| `BlockChain.BlockChain.ReconsiderBlock` | blockchain/chain.go:1972-2057 | keeps the invariant and refines the reconsider step for the tip its loop chose, of which `ReconsiderStays` and `ReconsiderMoves` say where it leads |
| `BlockChain.BlockChain.HeightRange` | blockchain/chain.go:1554-1595 | an error exactly for negative or reversed ranges; otherwise the best chain hashes of the range, cut at the tip |
| `BlockChain.BlockChain.IntervalBlockHashes` | blockchain/chain.go:1643-1676 | mixing view lookups and skip search gives the end node's own ancestors at every positive multiple of the interval |
| `BlockChain.BlockChain.InitChainState` | blockchain/chainio.go:1173-1320 | succeeds exactly when the scan loads, and then the state is the reloaded one |
| `IndexStore.BlockIndexKey` | blockchain/chainio.go:1427-1432 | the buffer holds the big-endian height followed by the hash |
| `IndexStore.KeyOrder` | blockchain/chainio.go:1424-1432 | byte order of keys is height order, and hash order within a height; keys identify blocks |
| `IndexStore.LoadIndex` | blockchain/chainio.go:1221-1262 | the cursor loop refines the recursive load, and whatever it loads is a well-built tree closed under parents |
| `IndexStore.LoadsIff` | blockchain/chainio.go:1221-1262 | rows load if and only if the first is that of genesis and each other one names a block scanned before it; the index then holds exactly the hashes scanned |
| `IndexStore.ParentFirst` | blockchain/chainio.go:1221-1262 | a key-ordered scan meets every parent before its child |
| `IndexStore.LoadsTree` | blockchain/chainio.go:1221-1262 | a scan of the stored rows rebuilds the same index, node for node, with the stored flags |
| `IndexStore.RestartOutcome` | blockchain/chainio.go:1173-1320 | restarting at any moment keeps tree, tip and ledger; flags are those stored, with tip ancestors made valid |
| `IndexStore.ReloadRoundTrip` | blockchain/chainio.go:1173-1320 | after a flush, restarting changes nothing at all |
| `ChainRestarts.AcceptFlushes` | blockchain/chain.go:1164-1306 | an accept step leaves no flag unwritten, or changes nothing |
| `ChainRestarts.AttachLeaves` | blockchain/chain.go:936-978 | of the blocks to attach only a refused one, a child of the final tip, keeps an unwritten flag |
| `ChainRestarts.RestartKeepsInv` | blockchain/chainio.go:1173-1320 | a restart between operations, flushed or not, succeeds, loses no block, tip or ledger entry and keeps the invariant |
| `ChainRestarts.EveryHistory` | blockchain/chainio.go:1173-1320 | over every history of accepts, invalidations, reconsiderations and restarts the invariant holds and no restart fails |
| `Compression.SerializeSizeVLQ` | blockchain/compress.go:52-59 | the size computed is the length of the encoding |
| `Compression.PutVLQ` | blockchain/compress.go:66-88 | writing groups low to high and reversing them in place leaves the encoding in the buffer and nothing else changed |
| `Compression.DeserializeVLQ` | blockchain/compress.go:93-106 | value and size for any bytes, truncated ones included, with 64-bit wrap-around |
| `Compression.VlqRoundTrip` | blockchain/compress.go:52-106 | every 64-bit number decodes to itself from the front of any bytes, and consumes exactly its encoding |
| `StoredFormats.VlqIsUnique` | blockchain/compress.go:12-47 | some bytes are the encoding of a number if and only if the high bit is set on all but the last and the seven-bit groups, one added for every byte that follows, make up the number |
| `Compression.CompressTxOutAmount` | blockchain/compress.go:463-488 | the loop computes the compressed amount cut to 64 bits |
| `Compression.DecompressTxOutAmount` | blockchain/compress.go:493-528 | the loop computes the decompressed amount cut to 64 bits |
| `Compression.AmountRoundTrip` | blockchain/compress.go:463-528 | decompression inverts compression for every amount, and compression makes an amount at most nine times larger |
| `StoredFormats.AmountForm` | blockchain/compress.go:424-459 | an amount with at most eight zeros behind its last other digit, in closed form |
| `StoredFormats.WholeAmountForm` | blockchain/compress.go:424-459 | an amount with nine zeros or more, zero included, in closed form |
| `Compression.AmountRoundTripIff` | blockchain/compress.go:463-528 | a 64-bit amount survives compression cut to 64 bits if and only if its compressed form fits in 64 bits |
| `ScriptCompression.SizeIsLength` | blockchain/compress.go:244-265 | the size computed is the length of the compressed script, for every kind of script |
| `ScriptCompression.ScriptRoundTrip` | blockchain/compress.go:271-421 | every script, standard or not, is read back from its compressed form, and the size read off the front of any bytes is that of the compressed form |
| `StoredFormats.HashForms` | blockchain/compress.go:119-122 | pay-to-pubkey-hash and pay-to-script-hash, opcode by opcode: a zero or a one and the hash |
| `StoredFormats.KeyForms` | blockchain/compress.go:123-128 | pay-to-pubkey: a compressed key as it is, an uncompressed one as four or five by its parity and its x coordinate |
| `StoredFormats.OtherForms` | blockchain/compress.go:130-134 | every script of another kind: its length plus six, and the script |
| `ScriptCompression.CodecIsLawful` | blockchain/compress.go:271-421 | script compression is a codec as the journal results ask for, if public key parsing restores an uncompressed key from its x coordinate and parity |
| `SpendJournal.SpentTxOutSerializeSize` | blockchain/chainio.go:300-309 | the size computed is the length of the encoding |
| `SpendJournal.PutSpentTxOut` | blockchain/chainio.go:315-326 | the entry is written at the offset and nothing else in the buffer changes |
| `SpendJournal.SerializeSpendJournalEntry` | blockchain/chainio.go:432-452 | the buffer of the precomputed size is filled exactly with the reverse-order encoding |
| `SpendJournal.DecodeSpentTxOut` | blockchain/chainio.go:331-373 | refines the decoder of one entry, failing on empty and truncated input |
| `SpendJournal.DeserializeSpendJournalEntry` | blockchain/chainio.go:381-428 | the nested backward loops over transactions and inputs refine the recursive decoder, errors included |
| `SpendJournal.SpentRoundTrip` | blockchain/chainio.go:286-373 | for every 32-bit height and 64-bit amount an entry decodes, whatever follows it, to itself if and only if its compressed amount fits; the reserved byte is consumed exactly when the height is positive |
| `StoredFormats.EntryForm` | blockchain/chainio.go:186-198 | an entry piece by piece: twice the height with the coinbase flag, a zero byte exactly above height zero, the compressed amount and the script |
| `StoredFormats.LastComesFirst` | blockchain/chainio.go:157-186 | the entry of the last output comes first |
| `StoredFormats.DocumentedCoinbase` | blockchain/chainio.go:200-215 | the first documented entry, byte for byte, for any x coordinate |
| `StoredFormats.DocumentedPair` | blockchain/chainio.go:217-236 | the second documented entry, byte for byte, for any two hashes |
| `SpendJournal.JournalRoundTrip` | blockchain/chainio.go:381-452 | any list of entries decodes, with any transactions that have that many inputs, to the list as its amounts leave it, which is the list itself if and only if every compressed amount fits in 64 bits |
| `SpendJournal.SmallAmountsFit` | blockchain/compress.go:463-488 | every amount up to a ninth of the 64-bit range fits, far above any amount of money; the largest signed amount does not |
| `SpendJournal.StoredJournalDecodes` | blockchain/chainio.go:460-492 | for every best chain block of every reachable state the stored bytes decode, with the block's own transactions, to the entry that undoes it if and only if its compressed amounts fit |
| `AddrBook.DropKeeps` | addrmgr/addrmanager.go:244-280 | taking keys out of a new bucket keeps reference counts, kinds, counters and sizes in agreement |
| `AddrBook.DrawBoundPositive` | addrmgr/addrmanager.go:204-209 | the bound passed to the random draw is positive |
| `AddrBook.UpdateKeeps` | addrmgr/addrmanager.go:166-240 | adding or refreshing an address keeps everything conserved; a full bucket always gives up an entry first |
| `AddrBook.UpdateEffect` | addrmgr/addrmanager.go:166-280 | record by record and bucket by bucket: an address not known before is known afterwards, untried, from its source, with one reference, in the bucket its hash names; a known one is refreshed and may gain that reference; a full bucket loses exactly its bad entries and an oldest other one; nothing else changes |
| `AddrBook.GoodFindsBucket` | addrmgr/addrmanager.go:940-962 | the exit for an address in no bucket is never taken, and no reference is left over |
| `AddrBook.GoodKeeps` | addrmgr/addrmanager.go:913-999 | promotion, with or without eviction, keeps everything conserved |
| `AddrBook.GoodAgain` | addrmgr/addrmanager.go:913-936 | an unknown address changes nothing; one tried already gets its times and attempts reset and nothing else changes |
| `AddrBook.GoodPromotes` | addrmgr/addrmanager.go:924-966 | an untried address ends up tried, in no new bucket, in the tried list its hash names, with no references, no attempts and both times now; no address is forgotten, and with room in the list no other record, bucket or list changes |
| `AddrBook.GoodEvicts` | addrmgr/addrmanager.go:967-999 | a full list gives its first oldest entry's place to the address; that entry is untried again with one reference, in the bucket its hash names or, when that is full, in the one the address left, and nothing else changes |
| `AddrBook.GetAddressCanEnd` | addrmgr/addrmanager.go:794-859 | the table drawn from always has a non-empty bucket, so some draw ends the loop |
| `AddrBook.GetAddressKnown` | addrmgr/addrmanager.go:794-859 | what is returned is a known address of the table that was drawn from |
| `AddrBook.GetAddressIs` | addrmgr/addrmanager.go:794-859 | the address returned is the one at the place of the first draw that is taken, from the table the coin and the two populations choose |
| `AddrManager.AddrManager.constructor` | addrmgr/addrmanager.go:1207-1218 | a fresh manager has empty, conserved tables |
| `AddrManager.AddrManager.ExpireNew` | addrmgr/addrmanager.go:244-280 | throws away exactly the bad entries and, of the others, one that none is older than |
| `AddrManager.AddrManager.UpdateAddress` | addrmgr/addrmanager.go:166-240 | keeps the tables conserved and refines the update step, whose effect is `UpdateEffect` |
| `AddrManager.AddrManager.PickTried` | addrmgr/addrmanager.go:285-297 | the first of the oldest entries of the list |
| `AddrManager.AddrManager.Good` | addrmgr/addrmanager.go:913-999 | keeps the tables conserved and refines the promotion step, whose effects are `GoodAgain`, `GoodPromotes` and `GoodEvicts` |
| `AddrManager.AddrManager.Attempt` | addrmgr/addrmanager.go:867-883 | one more attempt, made now; every other field, every other address and the tables stay, and remain conserved |
| `AddrManager.AddrManager.Connected` | addrmgr/addrmanager.go:888-908 | a timestamp more than twenty minutes old is replaced; everything else stays, and the tables remain conserved |
| `AddrManager.AddrManager.SetServices` | addrmgr/addrmanager.go:1002-1020 | replaces the services of one address; everything else stays, and the tables remain conserved |
| `AddrManager.AddrManager.GetAddress` | addrmgr/addrmanager.go:794-859 | refines the selection and returns only known addresses |
| `AddrManager.AddrManager.AddressCache` | addrmgr/addrmanager.go:667-685 | the partial shuffle returns distinct known addresses, 23 percent of them and at most 2500, however the draws fall |
| `AddrManager.AddrManager.SavePeers` | addrmgr/addrmanager.go:363-408 | the file lists every address once, every new bucket without repetition and every tried list in order |
| `AddrManager.AddrManager.DeserializePeers` | addrmgr/addrmanager.go:444-549 | fails exactly where the specification does; otherwise the tables are the loaded ones |
| `AddrPeers.SaveLoadRoundTrip` | addrmgr/addrmanager.go:363-549 | saving and loading into a fresh manager restores keys, buckets, tried lists, references, kinds, attempts and counters |
| `AddrPeers.ReopenedConserved` | addrmgr/addrmanager.go:471-546 | what is restored is conserved again, and with service bits in the file every field but timestamps is as it was |
| `AddrFiles.LoadPeersIff` | addrmgr/addrmanager.go:444-549 | a file loads if and only if its version is at most two, every address and source can be read, every entry of a bucket or list is one of the addresses and every address is in a bucket or in a list but not in both; each address then has as many references as bucket entries, and the tables are those of the file |
| `AddrRuns.EveryRunConserves` | addrmgr/addrmanager.go:166-999 | after every run of operations, reopenings included: references count the new buckets holding an address, at most eight; tried means no references and exactly one place in the tried lists; counters equal the two populations; buckets hold at most 65 and lists at most 256 |
| `FilterCheckpoints.PrefixAgrees` | server.go:1155-1166 | up to the fork index the cache holds what the query asks for |
| `FilterCheckpoints.ReplyIsDirect` | server.go:1095-1221 | a query whose lookups from the fork index on succeed is answered as without a cache, and the cache again holds one ancestry |
| `FilterCheckpoints.EveryQueryDirect` | server.go:1095-1221 | for every sequence of stop blocks on any branches, every reply is the uncached one |
| `FilterCheckpoints.EveryTurnDirect` | server.go:1110-1152 | for every interleaving of handlers between the read lock and the write lock, every reply is the uncached one, and the read lock leaves the cache alone |
| `FilterCheckpoints.FailedLookupIff` | server.go:1136-1213 | after a failed lookup the cache holds one ancestry if and only if it did not write into a slice with room to grow over entries that outlast the write |
| `FilterCheckpoints.FirstQueryFills` | server.go:1136-1213 | a query on the empty cache leaves the checkpoints of its block in it |
| `FilterCheckpoints.MixedCacheMisleads` | server.go:1136-1213 | in the remaining case a later query gets a filter header of the wrong branch |
| `CheckpointExamples.CacheCanMislead` | server.go:1136-1213 | two branches off genesis, with two and three checkpoints, on which three queries from the empty cache end with such a reply |
| `FilterCheckpoints.IndexIsUniverse` | server.go:1095-1101 | the index of any chain state meets the assumptions of these results if no block hashes to zero |
| `FilterCheckpoints.CheckpointCache.UnderReadLock` | server.go:1109-1213 | a query the cache is long enough for is answered as the query step says without touching the cache; any other gets no reply |
| `FilterCheckpoints.CheckpointCache.UnderWriteLock` | server.go:1119-1219 | looking again, growing, backward scan, lookup and in-place update of the cached slice refine the query step on the cache of that moment, shared buffers included |
| `FilterCheckpoints.CheckpointCache.OnGetCFCheckpt` | server.go:1095-1221 | the two parts together refine the query step when no other handler comes between them |
| `ChainQueries.IntervalIsCheckpoints` | server.go:1092-1101 | the hashes the handler asks for are the checkpoints of the stop block |
| `NotificationQueues.QueueRunSafe` | rpcwebsocket.go:151-193 | over every run, what was delivered followed by what is queued is what arrived, and a send offers the oldest value exactly while the queue is not empty |
| `NotificationQueues.QueueServes` | rpcwebsocket.go:151-193 | a ready reader is given the oldest value there is, queued or just arriving, and nobody is given anything otherwise |
| `NotificationQueues.QueueDrains` | rpcwebsocket.go:151-193 | a reader ready as often as there are queued values is given all of them, in order |
| `NotificationQueues.QueueHandler` | rpcwebsocket.go:151-193 | the loop refines the step system and delivers in order |
| `NotificationQueues.OutboxRunSafe` | rpcwebsocket.go:1795-1844 | over every run, handed over followed by pending is what arrived, at most one message is outstanding, and messages pend only while waiting |
| `NotificationQueues.NotificationStep` | rpcwebsocket.go:1807-1819 | a notification is handed over at once exactly when none is out |
| `NotificationQueues.NotificationQueueHandler` | rpcwebsocket.go:1795-1844 | the loop refines the step system |
| `NotificationQueues.AcknowledgementsDrain` | rpcwebsocket.go:1822-1838 | acknowledgements hand over everything pending, in order, and end the waiting |
| `Watches.AddRequestsAgree` | rpcwebsocket.go:885-918 | adding requests keeps both sides of a watch index in agreement and adds exactly the pairs asked for |
| `Watches.RemoveAgrees` | rpcwebsocket.go:934-954 | removing a request keeps agreement, removes exactly that pair, and leaves no key without a client |
| `Watches.ClientGone` | rpcwebsocket.go:554-571 | removing all of a client's requests leaves it watching nothing and nobody else affected |
| `Watches.WatchersDetermine` | rpcwebsocket.go:885-954 | two agreeing indexes with the same watchers are the same to every reader |
| `NotificationManager.Manager.AddSpentRequests` | rpcwebsocket.go:885-918 | the loop adds the requests to both sides |
| `NotificationManager.Manager.RemoveSpentRequest` | rpcwebsocket.go:934-954 | removes the request from both sides, and the key when nobody is left |
| `NotificationManager.Manager.NotifyForTxIns` | rpcwebsocket.go:1079-1112 | tells every client watching an input, each once; in a block exactly the requests for the inputs are gone afterwards |
| `NotificationManager.Manager.NotifyForTxOuts` | rpcwebsocket.go:990-1036 | exactly the clients watching a paid address come to watch the output |
| `NotificationManager.Manager.NotifyForTx` | rpcwebsocket.go:1064-1073 | spent outpoints are dropped before paid outputs are added |
| `NotificationManager.Manager.Unregister` | rpcwebsocket.go:554-571 | right after unregistration the client is in no map, and no other client is affected |
| `NotificationManager.Manager.Handle` | rpcwebsocket.go:481-596 | every notification step keeps both watch indexes in agreement and changes the three client sets and the watchers exactly as the message says; a message that is not about outpoints or not about addresses leaves their watchers alone, a client that leaves takes only its own watches, and a client that watches nothing comes to watch nothing by messages of others |
| `NotificationManager.Manager.NotificationHandler` | rpcwebsocket.go:481-596 | after any sequence of messages the indexes agree, and a client that left and sent nothing since is in no map |
| `Rescan.TrailIsPath` | rpcwebsocket.go:2628-2796 | a parent-linked trail with consecutive heights is the path to its last block from the start height |
| `Rescan.ScanNext` | rpcwebsocket.go:2743-2765 | the next block handed over extends the trail, within a hash list and across lists |
| `Rescan.ScanBlockChunks` | rpcwebsocket.go:2610-2796 | the nested loops refine the step system for any chain changes between looks, ending as it ends; the rescanned blocks form a parent-linked path with consecutive heights from the start; a rescan that finishes has reached the stop height or the end of the chain; when the client is registered the path is the best chain of that moment from the start to the tip, or nothing was scanned |
| `Rescan.RecoverFromReorg` | rpcwebsocket.go:2563-2591 | the new range and its check against the last block refine the step system |
| `Rescan.LostBlockEnds` | blockchain/chainio.go:1459-1476 | over every run: a look whose chain lacks the listed block ends the rescan with a database error, with nothing more handed over, whatever the chain does afterwards |
| `Rescan.RecoveryIff` | rpcwebsocket.go:2690-2740 | over every run and at every look: recovery is entered if and only if the listed block is still on the chain, its data is missing and there is no stop block |
| `Rescan.NoRecovery` | rpcwebsocket.go:2690-2740 | over every run in which no block data is missing, recovery is never entered |
| `Rescan.ErrorsIff` | rpcwebsocket.go:2563-2765 | over every run and at every look: exactly when the rescan ends with a database error, and exactly when with a reorganization error |
| `RescanProgress.ProgressIff` | rpcwebsocket.go:2610-2796 | over every run and at every look: exactly when a block is handed over, and which; exactly when the client is registered, when it is gone, and when the rescan is finished |
| `RescanProgress.RangesFetched` | rpcwebsocket.go:2563-2660 | over every run: a range asked for is the next fifty thousand blocks, cut at the stop height and the tip, or after a recovery all of them |
| `RescanProgress.StillChainIsRescanned` | rpcwebsocket.go:2610-2796 | a rescan of a chain that keeps still ends, having handed over every block from the start height to the stop height or the tip; without a stop height the client is registered |
| `Rescan.ReorgIsAnError` | rpcwebsocket.go:2690-2740 | a concrete rescan whose next listed block is replaced by a sibling between looks, while the last block handed over stays on the chain: it ends with a database error |

## Left out

- Script, signature, proof-of-work and REAP rules: their verdicts are inputs.
- A block that creates an output which is still unspent breaks a rule at every height here; the source stops looking for such blocks once BIP 34 rules them out.
- Fast adds: a caller of a fast add on the tip vouches for the block's inputs, as the source asks of its callers; `Vouched` is that condition.
- Database failures, pruning and the flush policy of the output cache: updates are atomic and succeed, and the cache and its view are one map.
- A cache that was changed before `connectTransactions` returned an error: under the invariant no such error occurs for a block that passed.
- The legacy journal format: `JournalHeights` shows its branch is never taken.
- The chain object connects and disconnects blocks on the plain set of unspent outputs; that a view with spent entries does the same is `UtxoViewpoint`.
- 32-bit wrap-around of heights in the chain state; heights are natural numbers except in stored keys, the journal codec and the rescan, where widths are explicit.
- The work stored with the best state: after a disconnect it is that of the removed block, so no invariant speaks of it; `ConnectKeeps` and `DisconnectKeeps` say what it is after each.
- The heaviest tip after `InvalidateBlock` and `ReconsiderBlock`: the first tries one candidate and the second keeps the last tip it met.
- The orphan pool, checkpoints, chain tips listing, locators and header queries.
- Public key parsing: any parser that restores an uncompressed key from its x coordinate and parity. A stored script size of 2^63 or more is too large here; the source makes it a negative integer.
- Row headers: a row's header stands for the block it identifies, so header bytes are not modelled.
- IndexStore.ReloadRoundTrip: heights below 2^32 and hashes below 2^256, the widths of the key.
- What is done with a peers file that fails to load, local addresses, reachability, DNS and address parsing.
- AddrManager.AddrManager.GetAddress: the number of draws is finite here; the source draws until one is taken.
- The sharing of one address record between index and buckets: buckets hold keys.
- Mempool lookups in `addSpentRequests`, transaction filters and the JSON that is sent: they change no watch index.
- Locks and goroutines beyond the step systems.
- Rescan.ScanBlockChunks: what `rescanBlock` does with a block, and what a progress notification says.
- config.go, upnp.go, the RPC handlers and the peer-to-peer message handlers other than `OnGetCFCheckpt`.
