# Verified model of the Tetra node's core

Tetra is a fork of Bitcoin 0.8 and Litecoin. This project models the parts of it whose correctness does not show in any single function, and proves what they are for:

- **The coin state of the active chain** (`Transactions`, `Coins`, `CoinsView`, `CoinUpdates`, `CleanDisconnect`, `BlockIndex`, `BlockProcessing`, `BlockTree`, `ConnectLaws`, `CleanChain`, `ChainState`). Unspent outputs live in a stack of write-back caches over a database. Blocks are connected and disconnected with undo records, and `SetBestChain` switches between branches of the block tree. After any run of switches the unspent outputs are those of a replay from the first block to the tip, whatever way led there, which is exactly what the blocks of the branch created and did not spend; a switch that fails changes nothing visible; the database holds the coins of the block it names, the last one reached at a time to write; `pnext` and the height index stay right.
- **Merkle trees, branches and partial trees** (`MerkleTree`, `PartialMerkleTree`, `PartialTreeSize`, `FlagBits`): the flat array, branches that verify exactly for the right leaf, and the partial trees of BIP 37 with their packed flag bits and their exact size.
- **The script check queue** (`CheckQueue`): one master and any number of workers around one mutex, as a state machine over critical sections and batch executions.
- **The address manager** (`AddrMan`, `AddrManDraw`, `AddrManOps`, `AddrManLaws`, `AddrManFile`, `AddrManConvert`): five indexes changed in place together, their consistency over every operation, how many buckets a network group can reach, saving and loading, and loading files with another number of buckets.
- **scrypt** (`Scrypt`): the plain form and the SSE2 form against sections 3 to 6 of RFC 7914.
- **The memory pool, message framing, Base58, the coin format and the block locator** (`MemPool`, `NetMessage`, `Base58`, `CoinsSerialization`, `BlockLocator`), over small helpers (`Arithmetic`, `Sequences`).

Conventions. 256-bit hashes and times are unbounded numbers. The two-argument hash of the Merkle trees is an arbitrary function; the soundness results assume only that nobody finds a second preimage for a node of the tree at hand, which an injective hash satisfies. Views of the coins are compared by what is unspent (`SameView`): an absent, a pruned and a default entry are the same, because disconnecting leaves default entries behind and the database drops pruned ones. An output counts as spent when its currency map is empty, as in the program. Random numbers are parameters, so every contract holds for all of them. Methods are proved against functions on values; the lemmas then say what those functions mean.

Places where the program and its documentation or intention differ, each with its exact condition:

- The comment at `src/main.h:1235` bounds the flag bits of a partial tree by 2N - 1 for N stored hashes. There is one bit more for every inner node on the way that has a single child (`FlagBitCount`), so the bound holds exactly when no chosen transaction lies below the last node of a level that follows a level of odd width (`DocumentedBitBoundIff`); `DocumentedBitBoundFails` is an example. There is one hash, and one more for every inner node on the way that has two children (`HashCount`). With these two numbers the choice alone decides whether the size guaranteed at `src/main.h:1219-1222` holds (`GuaranteeIff`): it does for blocks of up to 1000 transactions and fails by a byte for some larger ones (`GuaranteeFails`).
- Disconnecting reports a mismatch for some blocks it restores correctly. `DisconnectIsClean` says for which, from any coins that show what connecting the block left: each transaction must fit its entry (`Fits`), which can be tested before disconnecting. Among canonical entries that means canonical outputs, or none at all and an entry that is absent or as created (`DisconnectRecognises`). A transaction with some outputs and a null one at the end fits as long as its entry is as it was created, and no longer once a later block has left nothing of it and been disconnected (`SpentHoleFails`); `SpentHoleExample` has two blocks of that kind.
- A root of 0 also means failure, so data that extracts with the root of a block vouches for the matches exactly when that root is not 0 (`RootVouchesIff`).
- `SelectTried` remembers the position of the least recently tried entry before it swaps that entry to the front, and so hands whatever lies there afterwards to eviction. From a bucket of at least four entries, as the full one that it is called with, the entry it hands over is a least recently tried one of the drawn, whatever is drawn, exactly when all entries of the bucket were last tried at the same time (`EvictsOldestIff`); `YoungerCanBeEvicted` finds the draws for every other bucket.

## Model

| member | source | states |
|---|---|---|
| Transactions.OneCurrency | src/cash.cpp:233-306 | amounts in one currency compare as numbers, and the empty amount equals no other |
| Transactions.MixedCompareEqual | src/cash.cpp:233-306 | amounts with more of one currency and less of another compare equal both ways, different as they are |
| Coins.Coins.Spend | src/main.h:1079-1093 | spending succeeds exactly for an available output, trims trailing spent outputs, and puts the metadata into the undo record exactly when the last output goes |
| Coins.Coins.Cleanup | src/main.h:936-941 | drops exactly the spent outputs at the end |
| Coins.SpentSlots | src/main.h:1079-1093 | a spend removes that output and no other; nothing is left exactly when all outputs are spent |
| Coins.RestoreUndoesSpend | src/main.cpp:1628-1653 | putting an output back with its undo record restores the coins, the last output included, from any coins that look as after the spend, and raises no complaint |
| Coins.CleanUnlessHeightZero | src/main.cpp:1630-1645 | the undo height 0 means "not the last output": for the last output the restore is clean exactly when the coins have a height above 0 |
| Coins.SameCoinsMeaning | src/main.h:1103-1114 | two sets of coins are the same exactly when every output agrees and, unless all is spent, the metadata do |
| CoinsViews.CoinsViewDB.BatchWrite | src/txdb.cpp:12-17 | writing through drops pruned entries and keeps all others |
| CoinsViews.DroppingPrunedIsInvisible | src/txdb.cpp:12-17 | dropping pruned entries does not change what is unspent |
| CoinsViews.CoinsViewCache.GetCoins | src/main.cpp:204-232 | a lookup finds what the stack shows, and caching it on the way changes nothing that any level shows |
| CoinsViews.CoinsViewCache.SetCoins | src/main.cpp:234-237 | only the entry changes, and nothing below |
| CoinsViews.CoinsViewCache.GetBestBlock | src/main.cpp:243-247 | the tip of the stack, remembered without changing what is shown |
| CoinsViews.CoinsViewCache.BatchWrite | src/main.cpp:254-259 | the given entries go over the cached ones, and the tip is replaced |
| CoinsViews.CoinsViewCache.Flush | src/main.cpp:261-266 | after a flush the level below shows what this one showed, up to pruned entries in the database, and this one shows the same |
| CoinUpdates.SpendInputsDefined | src/main.cpp:1446-1451 | when inputs are available and distinct, the assertion in the spending loop cannot fail |
| CoinUpdates.SpendInputsSlots | src/main.cpp:1441-1457 | spending the inputs of a transaction removes exactly those outputs |
| CoinUpdates.ConnectSame | src/main.cpp:1702-1801 | connecting to views with the same unspent outputs has the same outcome and writes the same undo records |
| CoinUpdates.ConnectTxsHeights | src/main.cpp:1714-1718 | all heights in the view stay above 0, because the first block's coins are never connected |
| CoinUpdates.UndoSizes | src/main.cpp:1590-1624 | a connected block has one undo record for each transaction but the coinbase, and in it one for each input, so the consistency tests of disconnecting pass |
| CoinUpdates.DisconnectUndoesConnect | src/main.cpp:1574-1660 | disconnecting with the recorded undo data restores the previous unspent outputs, in-block spends and coins spent to the last output included; the only complaint it can raise concerns a transaction's own outputs |
| CleanDisconnects.FullSpendRoundTrip | src/main.cpp:1600-1615 | coins that are spent completely and restored compare equal to the original exactly when they are canonical: last output unspent, no script left in a spent one |
| CleanDisconnects.DisconnectIsClean | src/main.cpp:1594-1660 | from any coins that show what connecting left, a block is disconnected without complaint exactly when each of its transactions fits: without outputs, its entry is absent or as created; otherwise the entry is no longer than the outputs, ends where they end unless their last one holds something, and the scripts of null outputs are those of the entry, or blank beyond it |
| CleanDisconnects.DisconnectTracked | src/main.cpp:1594-1660 | the same after any number of later blocks have been disconnected, judged by the coins from before that; the coins afterwards have grown from those without the block's own entries |
| CleanDisconnects.DisconnectRecognises | src/main.cpp:1600-1615 | when the entries of the block's own transactions are canonical: clean exactly when each has canonical outputs, or none and an entry that is absent or as created |
| CleanDisconnects.DisconnectConnectedIsClean | src/main.cpp:1600-1604 | what was just connected to any coins disconnects without complaint, unless some outputs of a transaction with a hole were spent in the block itself |
| CleanDisconnects.SpentHoleFails | src/main.cpp:1606-1615 | when a later block leaves nothing of one transaction that has outputs and a hole, disconnecting both restores all unspent outputs and still complains about the first block |
| CleanDisconnects.SpentHoleExample | src/main.cpp:1606-1615 | two connected blocks for which that happens, although the first one could be disconnected cleanly before the second was connected |
| CleanDisconnects.ConnectCanonical | src/main.cpp:1762-1801 | a transaction with canonical outputs has a canonical entry when its block has been connected |
| BlockProcessing.HaveInputs | src/main.cpp:1459-1478 | true exactly when every input of a transaction that is not a coinbase is an unspent output of the view |
| BlockProcessing.UpdateCoins | src/main.cpp:1441-1457 | spends the inputs, records how to undo that, and adds the outputs |
| BlockProcessing.PassesCheckTransaction | src/main.cpp:563-610 | the checks of one transaction that concern neither amounts nor size |
| BlockProcessing.AllUnique | src/main.cpp:2241-2247 | the size of the set of hashes tells whether all transactions differ |
| BlockProcessing.PassesCheckBlock | src/main.cpp:2204-2247 | the loops of the program over a block accept exactly the sound ones |
| BlockProcessing.ConnectBlock | src/main.cpp:1702-1831 | succeeds exactly when the block may be connected here; the first block changes no coins; the undo record is written once; on failure nothing below the view changes |
| BlockProcessing.DisconnectBlock | src/main.cpp:1574-1668 | whenever undo data is there and fits, the view shows the coins without the block; a complaint is reported to a caller that asks for it and is a failure for any other |
| BlockTrees.DisconnectReplay | src/main.cpp:1574-1660 | from the coins of a branch, disconnecting its last block gives the coins of its parent's branch |
| BlockTrees.ConnectReplay | src/main.cpp:1702-1831 | from the coins of the parent's branch, connecting succeeds exactly when the replay does, gives its coins and records its undo data |
| BlockTrees.OneRoot | src/main.cpp:1864-1874 | in a block tree all branches share their first block, so the assertions of the fork search hold |
| BlockTrees.SameBlocksReplay | src/main.cpp:1702-1831 | branches of the same blocks, each with index entries of its own, replay to the same coins and undo data |
| ConnectLaws.ConnectsIff | src/main.cpp:1702-1801 | a block is refused for a missing or repeated coinbase, an unsound or repeated transaction, a hash of which something is unspent, or an input that is not unspent when its turn comes, and for nothing else that concerns outputs |
| ConnectLaws.CheckedIsSoundBlock | src/main.cpp:2204-2247 | what the checks that need no coins amount to |
| ConnectLaws.ConnectedOutputs | src/main.cpp:1702-1801 | after a block exactly this is unspent: what it created and what was unspent before, less what it spends, in-block spends included |
| ConnectLaws.ConnectedMetadata | src/main.cpp:1441-1457 | new entries carry the height of the block, the version of their transaction, and the coinbase flag exactly for the first; all others keep theirs |
| ConnectLaws.NoDoubleSpend | src/main.cpp:1459-1478 | no two inputs of a connected block spend the same output |
| ConnectLaws.CoinbaseAlone | src/main.cpp:1702-1801 | a block of nothing but a coinbase is connected, adds exactly its outputs and has no undo records |
| ConnectLaws.MatchesIff | src/main.cpp:1594-1615 | when disconnecting, an entry passes exactly when coinbase flag, height, outputs and, unless negative, version are those of the transaction |
| ConnectLaws.ReplaysIff | src/main.cpp:1702-1801 | a branch can be replayed exactly when its first block is sound and every other acceptable after those before it |
| ConnectLaws.ReplayedOutputs | src/main.cpp:1702-1801 | the coins of a branch are what its blocks created and did not spend, output by output |
| CleanChains.ConnectUndisturbed | src/main.cpp:1762-1801 | along a branch that repeats no transaction without outputs, connecting the next block leaves every such transaction's entry as created, and the entries of canonical transactions canonical |
| CleanChains.DisconnectUndisturbed | src/main.cpp:1594-1660 | so does disconnecting, clean or not |
| CleanChains.UndisturbedIsClean | src/main.cpp:1594-1660 | from such coins every block whose transactions have canonical outputs or none fits, whatever the other blocks of the branch hold |
| CleanChains.DisconnectReplayTracked | src/main.cpp:1594-1660 | block after block on the way down, disconnecting is clean exactly when the block fits the coins the way started from, less the entries of the blocks above |
| ChainStates.ChainState.FindFork | src/main.cpp:1861-1874 | the fork is the highest block the two branches share |
| ChainStates.ChainState.Relink | src/main.cpp:1961-1969 | exactly the parents of the disconnected and connected blocks get new links |
| ChainStates.ChainState.LinksAfter | src/main.cpp:1961-1969 | afterwards every link is the next block on the way to the new tip, and null off that way |
| ChainStates.ChainState.CommitCoins | src/main.cpp:1938-1956 | the switch is pushed to the global view, and that to the database exactly at a time to write |
| ChainStates.ChainState.SetBestChain | src/main.cpp:1854-1969 | tip, coins, undo data and links stay consistent; a failing switch keeps the tip and the visible coins; it succeeds exactly when the blocks down to the fork fit the coins one after the other and every newly connected block is acceptable; the former holds from undisturbed coins when those blocks have canonical outputs or none; after a success at a time to write the level below holds the coins of the new tip and names it, and otherwise it is untouched |
| ChainStates.ChainState.DatabaseStores | src/main.cpp:261-266 | when the global view lies over the database, that level is the database |
| ChainStates.ChainState.FindBlockByHeight | src/main.cpp:1065-1080 | whichever hint there is, it returns the block of the active chain at that height, after no more steps than from the hint and at most half the height |
| ChainStates.ChainState.Run | src/main.cpp:1854-1969 | after any sequence of switches, successful or not, the tip is the last target reached and the coins are a replay of its branch; the level below names the last target reached at a time to write, and holds its coins; the coins are undisturbed if no target's branch has repetitions |
| ChainStates.ChainState.TipOutputs | src/main.cpp:1854-1969 | in a consistent state an output is unspent exactly as the blocks of the active branch created and did not spend it |
| ChainStates.ChainState.PathIndependence | src/main.cpp:1854-1969 | two nodes whose active chains have the same blocks have the same unspent outputs and the same undo data at every height |
| ChainStates.ChainState.NewlyConnectedHasNoNext | src/main.cpp:1314-1322 | a block that is being connected has no next block, so marking it invalid does not start another switch |
| ChainStates.ChainState.InMainChain | src/main.h:1805-1808 | the test for membership in the active chain is true exactly for the ancestors of the tip |
| CheckQueues.BatchSize | src/checkqueue.h:92-97 | a batch is the largest that every counted and idle thread and one more could take from the queue, within the limit, and at least one check |
| CheckQueues.Execute | src/checkqueue.h:110-113 | a batch comes out true exactly when it was entered true and all its checks are |
| CheckQueues.CheckQueue.Top | src/checkqueue.h:80-108 | under the mutex a thread sleeps, returns or takes the last checks of the queue, as the step of the state machine says |
| CheckQueues.CheckQueue.Account | src/checkqueue.h:71-76 | a finished batch is accounted for and the last one notifies the master |
| CheckQueues.CheckQueue.Add | src/checkqueue.h:136-147 | the checks are appended and counted |
| CheckQueues.StepKeepsInv | src/checkqueue.h:61-118 | every step of any thread keeps the counters equal to what they count, every added check accounted for, and every recorded failure real |
| CheckQueues.AlwaysInv | src/checkqueue.h:61-118 | the same in every reachable state, for any number of threads and any schedule |
| CheckQueues.WaitIsExact | src/checkqueue.h:80-91 | Wait returns true exactly when every check added since the previous Wait is true, although workers skip work after a failure |
| CheckQueues.ControlAsserts | src/checkqueue.h:165-172 | when nothing was added, all counted threads are idle, nothing is to do and the result is true, as the controller asserts |
| CheckQueues.NothingBlocks | src/checkqueue.h:61-118 | in every reachable state every thread can do its next step |
| CheckQueues.AdvancingWorks | src/checkqueue.h:66-117 | every step that is not just falling asleep again reduces the remaining work |
| CheckQueues.MasterNeverStuck | src/checkqueue.h:71-91 | while the master sleeps with work to do some worker holds a batch; when there is none the master has been notified |
| CheckQueues.WaitCanFinish | src/checkqueue.h:61-118 | Wait can always be brought to its end without waking a worker, within the remaining work |
| MerkleTrees.CalcTreeWidthIsWidth | src/main.h:1251-1256 | the shift formula for the width of a level is repeated halving, rounded up |
| MerkleTrees.LevelsAt | src/main.h:1419-1436 | the flat array holds the hash of node (level, i) at the offset of the level plus i |
| MerkleTrees.BlockTree.BuildMerkleTree | src/main.h:1419-1436 | builds all levels and returns the root, 0 for no transactions |
| MerkleTrees.BlockTree.GetMerkleBranch | src/main.h:1444-1458 | collects the sibling hashes on the way up, building the tree when it is missing; for every index at which the program reads inside the array |
| MerkleTrees.BlockTree.CheckMerkleBranch | src/main.h:1460-1473 | hashes up the branch, left or right by the bits of the index, negative ones included; 0 for index -1 |
| MerkleTrees.BranchIsComplete | src/main.h:1444-1473 | the branch of every transaction verifies to the root, odd-width levels included |
| MerkleTrees.BranchIsSound | src/main.h:1460-1473 | without second preimages, a branch of full length verifies at an index exactly for that transaction with its own branch |
| PartialMerkleTrees.PartialMerkleTree.FromBlock | src/main.cpp:2609-2621 | stores the flag bits and hashes of a depth-first walk that stops at subtrees without a match |
| PartialMerkleTrees.PartialMerkleTree.TraverseAndExtract | src/main.cpp:2579-2607 | reads bits and hashes in the same order, and marks the tree bad when either runs out |
| PartialMerkleTrees.PartialMerkleTree.ExtractMatches | src/main.cpp:2625-2656 | applies every plausibility test in order; a bad tree stays bad |
| PartialMerkleTrees.AcceptedUsesAll | src/main.cpp:2646-2653 | data that gives a root is used to the last hash and to the last byte of flag bits |
| PartialMerkleTrees.SurplusIsRefused | src/main.cpp:2646-2653 | with more hashes or more bytes of flag bits the same data gives none |
| PartialMerkleTrees.ExtractUndoesEncode | src/main.cpp:2561-2607 | extracting what was built gives the node's hash and exactly the matches below it, using exactly what was stored |
| PartialMerkleTrees.EncodingSize | src/main.h:1226-1228 | at most one hash per leaf, at most one per level above each match and one more, and at least as many bits as hashes |
| PartialTreeSizes.HashCount | src/main.cpp:2561-2577 | the exact number of hashes: one, and one for each visited inner node with two children |
| PartialTreeSizes.CompactSizeIs | src/serialize.h:164-170 | the length in front of a list takes one byte up to 252, else three, five or nine |
| PartialTreeSizes.FlagBitCount | src/main.cpp:2561-2577 | the exact number of flag bits: 2N - 1 for N hashes, and one for each visited inner node with a single child |
| PartialTreeSizes.DocumentedBitBoundIff | src/main.h:1235-1235 | the documented 2N - 1 holds exactly when no chosen transaction lies below the last node of a level that follows a level of odd width |
| PartialTreeSizes.DocumentedBitBoundFails | src/main.h:1235-1235 | five transactions with the last one chosen take five bits and two hashes |
| PartialTreeSizes.GuaranteeIff | src/main.h:1219-1235 | computed from the choice alone, the documented size 10 + ceil(32.25N) holds exactly when there are fewer than 253 flag bytes or the single children cost no byte of their own; always up to 1000 transactions |
| PartialTreeSizes.GuaranteeFails | src/main.h:1219-1235 | 1028 transactions, all chosen, take one byte more |
| PartialMerkleTrees.PartialTreeRoundTrip | src/main.cpp:2544-2656 | for any block within the size limit and any choice, building, padding and extracting gives the Merkle root and exactly the chosen transactions in order |
| PartialMerkleTrees.Relay | src/main.h:1271-1288 | the same through the program's methods: build, pack into bytes, send, unpack, extract |
| PartialMerkleTrees.ShiftsFit | src/main.h:1251-1256 | below the size limit no shift or sum leaves 32 bits |
| PartialMerkleTrees.ExtractionIsSound | src/main.cpp:2579-2656 | without second preimages, any bits and hashes accepted with the true root, if that is not 0, yield transactions of the block at strictly increasing positions |
| PartialMerkleTrees.FailureReportsMatches | src/main.cpp:2625-2656 | for every number of transactions within the limit, data that breaks off returns 0 together with an invented match |
| PartialMerkleTrees.RootVouchesIff | src/main.cpp:2625-2656 | the root of a block vouches for the matches extracted with it exactly when it is not 0, or the program extracts nothing from blocks of that size |
| FlagBits.Pack | src/main.h:1282-1286 | byte k is the sum of 2^i over the set bits 8k + i, filled up with zeros |
| FlagBits.ReadBits | src/main.h:1275-1281 | bit 8k + i is set exactly when 2^i is in byte k |
| FlagBits.UnpackedByte | src/main.h:1275-1286 | a byte is the number its eight bits make, the first one counting least |
| FlagBits.MaskIsShift | src/main.h:1280-1285 | the mask of a bit is 1 shifted to its place |
| FlagBits.UnpackInjective | src/main.h:1275-1281 | no two byte strings have the same bits |
| AddrMans.UpdateKeeps | src/addrman.cpp:277-281 | changing an entry's statistics keeps all indexes, and the check of the times exactly if the new ones are plausible |
| AddrMans.CreateKeeps | src/addrman.cpp:94-104 | a created entry with one reference counted ahead keeps all of them |
| AddrMans.SwapKeeps | src/addrman.cpp:106-124 | swapping two places of the random order keeps all of them and every entry's facts |
| AddrMans.UnlinkKeeps | src/addrman.cpp:157-173 | taking an entry out of a bucket, and deleting it with its last reference, keeps all of them; no other entry changes |
| AddrMans.LinkKeeps | src/addrman.cpp:357-364 | putting the pending entry into a bucket with room settles its count |
| AddrMans.PlaceKeeps | src/addrman.cpp:204-230 | moving an entry to a tried bucket with room keeps all indexes, and the times plausible exactly if it had a success |
| AddrMans.ReplaceKeeps | src/addrman.cpp:232-259 | so does replacing an entry of a full one and sending that back to a new bucket |
| AddrMans.EmptyIsConsistent | src/addrman.cpp:435-492 | the check passes at the start |
| AddrManDraws.DrawnIsOldest | src/addrman.cpp:126-148 | after the draws, the least recently tried of the drawn entries is among the first of the bucket, at the recorded place |
| AddrManDraws.EvictsOldestIff | src/addrman.cpp:126-148 | whatever four draws are made, the entry at the returned position is a least recently tried one of the drawn: so exactly when all entries of the bucket were last tried at the same time |
| AddrManDraws.YoungerCanBeEvicted | src/addrman.cpp:126-148 | four draws for every other bucket of four entries or more after which a more recently tried entry is handed to eviction |
| AddrManOps.AddrMan.SelectTried | src/addrman.cpp:126-148 | reorders one tried bucket by the draws that the random numbers make, and returns the position the least recently tried entry among them was drawn from |
| AddrManOps.AddrMan.ShrinkNew | src/addrman.cpp:150-202 | removes the first terrible entry if there is one, else the oldest of the entries at four random places; no assertion fails while an entry is being linked |
| AddrManOps.AddrMan.OldestPicked | src/addrman.cpp:176-190 | of the entries at the four places in ascending order, the first of those with the lowest time is taken |
| AddrManOps.AddrMan.MakeTried | src/addrman.cpp:204-260 | the entry becomes tried, at the end of its bucket if there is room; a full one gives up the entry at the position that the draws return, which goes to its own new bucket or, when that is full, to the one the new entry came from |
| AddrManOps.AddrMan.FindBucket | src/addrman.cpp:287-303 | the search from a random bucket finds the first one that holds the entry, and always does |
| AddrManOps.AddrMan.Good_ | src/addrman.cpp:262-311 | for a known service the success is recorded and, unless it was tried, the entry is moved from that bucket as above; times stay plausible exactly if this one is positive; nothing happens for others |
| AddrManOps.AddrMan.TryHarder | src/addrman.cpp:344-349 | after n references, exactly the multiples of 2^n among the random numbers let the entry go on |
| AddrManOps.AddrMan.Add_ | src/addrman.cpp:313-369 | an unknown routable address gets an entry in the bucket its source gives; a known one is refreshed, and linked into one more bucket exactly when the announcement is news, the random number allows it, and the entry is in the new table in fewer than four buckets and not in this one; a full bucket gives up the first terrible entry, or else the oldest at four random places |
| AddrManLaws.Limits | src/addrman.h:122-141 | consistent tables have 64 tried and 256 new buckets of at most 64 entries, and every new entry is in 1 to 4 of them |
| AddrManLaws.TriedBucketsOfGroup | src/addrman.cpp:11-23 | the tried addresses of one network group share 4 buckets |
| AddrManLaws.NewBucketsOfSource | src/addrman.cpp:25-37 | the new addresses that come from one source group share 32 buckets |
| AddrManLaws.GroupLimit | src/addrman.cpp:11-23 | so in consistent tables no group has more than 256 of the 4096 tried addresses |
| AddrManLaws.TerribleIff | src/addrman.cpp:39-57 | the five reasons to remove an entry, and the minute of grace after an attempt |
| AddrManLaws.TimeMovesIff | src/addrman.cpp:323-327 | the time of an entry moves exactly when the announcement is ahead of it by more than the penalty and an hour, or a day for one a day old |
| AddrManLaws.TimeMovesForward | src/addrman.cpp:323-327 | it never moves back, and the same announcement moves it once |
| AddrManOps.AddrMan.Attempt_ | src/addrman.cpp:371-388 | only the entry of exactly this service changes; times stay plausible exactly if this one is not negative |
| AddrManOps.AddrMan.Connected_ | src/addrman.cpp:510-529 | only its time, and only after 20 minutes |
| AddrManOps.AddrMan.GetAddr_ | src/addrman.cpp:494-508 | hands out 23 percent of the addresses, at most 2500, all known and different: the first ones after exchanging each place with a random later one |
| AddrManOps.AddrMan.Save | src/addrman.h:279-317 | the file has every new and tried entry once and every bucket's entries by number |
| AddrManOps.AddrMan.LoadFile | src/addrman.h:318-378 | rebuilds everything from the file, record by record and bucket by bucket; a bucket entry that names no record conjures up a default one |
| AddrManConversions.ConvertedKeeps | src/addrman.h:336-378 | a file of distinct addresses with another number of buckets loads with all indexes in order, except that a new bucket may be too full, which happens exactly when more than 64 records belong to it; new record i becomes entry i, and the tried records that find room the next entries in order: of each tried bucket the first 64 and no others |
| AddrManConversions.KeptFindRoom | src/addrman.h:341-360 | the tried records kept are those before which fewer than 64 belong to the same bucket, each once and in the order of the file |
| AddrManFiles.LoadOfSave | src/addrman.h:271-379 | however the entries were ordered, a saved file loads as the same address book, and that is consistent |
| AddrManFiles.SaveThenLoad | src/addrman.h:271-379 | with the same key and bucket counts, loading a saved address manager gives a consistent one with the same addresses, statistics, reference counts and buckets up to the numbering of ids, and plausible times if they were |
| Scrypts.AddIs | src/scrypt.cpp:205-233 | words are added modulo 2^32 |
| Scrypts.XorIs | src/scrypt.cpp:195-210 | exclusive or, by conjunction and disjunction |
| Scrypts.RotlIs | src/scrypt.cpp:188-188 | rotating by the four amounts shows 32 bits of the word written twice |
| Scrypts.MaskIsIndex | src/scrypt.cpp:276-276 | masking with 1023 gives the remainder modulo 1024 |
| Scrypts.RotateInTwoSteps | src/scrypt-sse2.cpp:51-53 | xoring the two shifted halves in turn is xoring the rotated word |
| Scrypts.Rounds | src/scrypt.cpp:195-236 | the sixteen-variable loop is four double rounds of Salsa20 |
| Scrypts.XorSalsa8 | src/scrypt.cpp:190-254 | one block is xored with another and run through Salsa20/8 in place; the rest of the array is untouched |
| Scrypts.ScryptGeneric | src/scrypt.cpp:256-287 | the plain form computes scrypt of RFC 7914 |
| Scrypts.ColumnsInRegisters | src/scrypt-sse2.cpp:49-63 | on the diagonals, four lane-wise quarter rounds are a column round |
| Scrypts.RowsInRegisters | src/scrypt-sse2.cpp:70-83 | after the first shuffles they are a row round |
| Scrypts.RoundsSse2 | src/scrypt-sse2.cpp:48-89 | the registers stay on the diagonals of the plain state through all rounds and shuffles |
| Scrypts.XorSalsa8Sse2 | src/scrypt-sse2.cpp:38-93 | the same in place on four registers |
| Scrypts.ScryptSse2 | src/scrypt-sse2.cpp:95-136 | the SSE2 form computes the same scrypt, through fill, data-dependent mixing and the permuted loads and stores |
| MemPools.AttachmentsAreNotCompared | src/main.h:664-670 | transactions that differ only in attachments compare equal |
| MemPools.MemPool.AddUnchecked | src/main.cpp:846-857 | enters the transaction and its inputs; the two indexes stay inverse exactly when no output was spent twice |
| MemPools.AddKeepsIff | src/main.cpp:846-857 | that condition, for every pool and transaction |
| MemPools.MemPool.Remove | src/main.cpp:860-882 | removes exactly the transaction or, recursively, exactly it and its descendants in the pool, and ends; every removal is counted |
| MemPools.ExactlyDescendants | src/main.cpp:865-872 | a set of descendants that nothing outside spends from is all descendants |
| MemPools.MemPool.RemoveConflicts | src/main.cpp:884-897 | whoever still spends one of the inputs compares equal; only unequal spenders and their descendants went; nobody is left without a parent |
| MemPools.MemPool.DeleteConnected | src/main.cpp:1979-1983 | after all connected transactions are deleted, none of them is in the pool and no unequal transaction that spends one of their inputs; whatever else is gone was such a one or its descendant |
| NetMessages.Node.ReceiveMsgBytes | src/net.cpp:627-653 | one call has the effect of its bytes one after the other, with the same failure |
| NetMessages.Node.Absorb | src/net.cpp:631-649 | every pass of the loop takes at least one byte |
| NetMessages.NetMessage.ReadHeader | src/net.cpp:655-685 | takes as much of the header as there is; -1 exactly when a complete header asks for more than the limit |
| NetMessages.NetMessage.ReadData | src/net.cpp:687-696 | takes as much of the payload as there is |
| NetMessages.ChunkingDoesNotMatter | src/net.cpp:627-653 | any cut of a stream into calls gives the same messages and the same failure |
| NetMessages.BytesKept | src/net.cpp:627-696 | no byte is lost, doubled or moved, and failure means a header over the limit |
| NetMessages.FramesParseBack | src/net.h:132-137 | well-formed frames sent one after the other, empty payloads included, arrive as exactly those messages |
| NetMessages.SizeIsLittleEndian | src/protocol.h:46-46 | the size in a header is n exactly when bytes 16 to 19 are its base-256 digits, lowest first |
| NetMessages.SentArrives | src/net.cpp:627-696 | frames with the size of their payload in the header, of any size up to 2^25 bytes, arrive as they were sent |
| NetMessages.RefusedOverLimit | src/net.cpp:675-677 | a header is refused exactly when its size is over 2^25 |
| Base58s.ConvertBack | src/base58.h:29-121 | changing the base and changing it back gives the same digits, leading zeros included |
| Base58s.AlphabetInOrder | src/base58.h:26-26 | the alphabet lists the characters the digits stand for |
| Base58s.SpacesAre | src/base58.h:84-85 | the characters that are skipped around a string |
| Base58s.BytesOfNumber | src/bignum.h:240-265 | every number survives the way through signed little-endian bytes |
| Base58s.TrimmedIs | src/base58.h:105-107 | trimming the sign byte leaves exactly the shortest digits |
| Base58s.Encode | src/base58.h:29-67 | the string is the digits in base 58 behind one '1' for each leading zero byte |
| Base58s.Decode | src/base58.h:77-121 | succeeds exactly for Base58 characters with spaces around, and gives the bytes they stand for |
| Base58s.DecodeEncoded | src/base58.h:29-121 | decoding an encoding returns the original bytes, for every byte string |
| Base58s.EncodeDecoded | src/base58.h:29-121 | encoding a decoding returns the original, for every string over the alphabet |
| Base58s.RoundTrip | src/base58.h:29-121 | any bytes come back from their encoding whatever spaces stand around it |
| CoinsSerializations.VarIntRoundTrip | src/serialize.h:272-302 | a variable-length integer is read back and nothing after it is touched; a negative one is cut to 7 bits |
| CoinsSerializations.WriteVarInt | src/serialize.h:272-287 | writes those bytes, highest first |
| CoinsSerializations.CalcMaskSize | src/main.h:970-986 | the length of the mask up to its last non-zero byte, and how many bytes are not zero |
| CoinsSerializations.SomethingUnspent | src/main.h:1016-1021 | the writer's assertion holds for every set of coins with something unspent |
| CoinsSerializations.CodeMeans | src/main.h:1022-1055 | the header code gives back the flags and the count of non-zero mask bytes |
| CoinsSerializations.ReadMaskStops | src/main.h:1056-1065 | counting non-zero bytes stops exactly at the last byte of the mask |
| CoinsSerializations.ReadsBack | src/main.h:1016-1076 | whatever follows, reading gives the coins back in standard form and consumes exactly what was written |
| CoinsSerializations.SurvivesIff | src/main.h:1016-1076 | cleaned coins come back unchanged exactly when the version is not negative and spent outputs hold no script |
| CoinsSerializations.Serialize | src/main.h:1016-1042 | writes that format |
| CoinsSerializations.Unserialize | src/main.h:1045-1076 | reads it, or fails where the data ends |
| BlockLocators.Set | src/main.h:2054-2069 | lists the blocks 0 to 10 and then 9 + 2^(k - 10) behind the tip, and the genesis block |
| BlockLocators.LocatorIsShort | src/main.h:2054-2069 | at most 12 + log2 of the height hashes |
| BlockLocators.GetBlockIndex | src/main.h:2092-2106 | the first listed block of the receiver's main chain, or the genesis block |
| BlockLocators.FindsNearFork | src/main.h:2054-2106 | when the branches part d blocks back, a common block at most max(d, 2d - 11) back is found |
| BlockLocators.MainPartIsBranch | src/main.h:1805-1808 | in a consistent chain state the blocks it searches are the branch of the tip |

## Left out

- Choosing the best block: `ConnectBestBlock` and `GetBlockValue` depend on `srges`, which is not part of this model. The target of `SetBestChain` is any block of the tree.
- Scripts, signatures, signature counts, amounts and fees: one Boolean per block says whether they passed. The comparisons of `Cash` are not an ordering, so only "the map is empty" and the program's equality are modelled.
- Disk, database and network failures, and the aborts they cause. Undo data and coins come back from disk as they were written; `SurvivesIff` says when that is so for coins.
- AddrManOps.AddrMan.LoadFile: a file with more than 256 buckets makes the program index past the end of a vector and is excluded; short or damaged files are stream failures.
- AddrManConversions.ConvertedKeeps: for files that repeat no address and whose bucket entries are numbers of new records, as the program writes them; it does not check either, and loads other files into indexes that disagree.
- MerkleTrees.BlockTree.GetMerkleBranch: a negative index into a block of two or more transactions makes the program read in front of a vector and is excluded.
- Base58s.Decode: a string ends at its length, not at a NUL character.
- `Check_` itself: its clauses are the predicate `Consistent`, with bucket sizes and the computed tried bucket added; `Indexed` is all of it but the times. Its code is compiled for debugging only.
- `Select_` and `GetChance` of the address manager: floating point and probabilities.
- Service masks are sets of bits, and 32-bit times and attempt counters do not wrap around.
- SHA-256, PBKDF2, the byte order of words in scrypt, the compressed format of a single output and OpenSSL's numbers: arbitrary functions, with the round trip assumed for a single output.
- MemPools.MemPool.Remove: termination needs a rank of transactions, which exists because a hash commits to the hashes it refers to; it is passed as a parameter.
- NetMessages.Node.ReceiveMsgBytes: the thread that takes complete messages from the front of the queue, and the connection limits.
- Threads other than those of the check queue, and spurious details of the mutex: notifying a worker is a wake-up at any time.
- Difficulty, proof of work, mining, wallet, RPC, alerts, the bloom filter and the small containers.
