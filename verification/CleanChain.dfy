/** Which branches can be taken back without complaint, block after block. */
module CleanChains {
  import opened Transactions
  import opened Coins
  import opened BlockIndexes
  import opened CoinsViews
  import opened CoinUpdates
  import opened CleanDisconnects
  import opened BlockTrees

  // ---------------------------------------------------------------- exactly when

  /** The blocks of `down`, the tip first, can be taken back from these coins without complaint: the
      transactions of each fit the coins, apart from the entries of later blocks' transactions, which
      will be gone by then. */
  ghost predicate CleanDown(coins: View, down: seq<BlockIndex>)
    decreases |down|
  {
    down == [] ||
    (BlockFits(coins, down[0].block, down[0].nHeight) && CleanDown(Cleared(coins, down[0].block), down[1..]))
  }

  /** One step of that, from coins that grew from `from`. */
  lemma DisconnectReplayTracked(b: BlockIndex, from: View, w: View)
    requires WellFormed(b) && b.pprev != null && Replay(b) != None && SameView(Replay(b).value, w)
    requires Tracks(from, w)
    ensures ReplayUndo(b) != None && UndoFits(b.block.vtx, ReplayUndo(b).value)
    ensures DisconnectClean(w, b.block.vtx, ReplayUndo(b).value, |b.block.vtx|, b.nHeight) <==>
      BlockFits(from, b.block, b.nHeight)
    ensures Tracks(Cleared(from, b.block), Disconnect(w, b.block.vtx, ReplayUndo(b).value, |b.block.vtx|))
  {
    hide SameView, Disconnect, DisconnectClean, UndoFits, Connect, HeightsPositive, Tracks, BlockFits, Cleared;
    ReplayHeights(b.pprev);
    DisconnectTracked(Replay(b.pprev).value, from, w, b.block, b.nHeight);
  }

  lemma CleanDownStep(coins: View, down: seq<BlockIndex>, i: nat)
    requires i < |down|
    ensures CleanDown(coins, down[i..]) ==
      (BlockFits(coins, down[i].block, down[i].nHeight) && CleanDown(Cleared(coins, down[i].block), down[i + 1..]))
  {
    hide BlockFits, Cleared;
    assert down[i..][1..] == down[i + 1..];
  }

  lemma CleanDownEnds(coins: View)
    ensures CleanDown(coins, [])
  {
  }

  // ---------------------------------------------------------------- branches

  /** The transactions of a block that have no unspent output from the start. */
  function NullTxids(block: Block): set<Hash> {
    set i | 0 <= i < |block.vtx| && AllNull(block.vtx[i].vout) :: block.vtx[i].hash
  }

  function CanonicalTxids(block: Block): set<Hash> {
    set i | 0 <= i < |block.vtx| && Canonical(block.vtx[i].vout) :: block.vtx[i].hash
  }

  /** All of the former on the branch that ends in `b`, without the root, which is never connected. */
  ghost function BranchNulls(b: BlockIndex): set<Hash>
    requires WellFormed(b)
    decreases b.nHeight
  {
    if b.pprev == null then {} else NullTxids(b.block) + BranchNulls(b.pprev)
  }

  ghost function BranchCanonicals(b: BlockIndex): set<Hash>
    requires WellFormed(b)
    decreases b.nHeight
  {
    if b.pprev == null then {} else CanonicalTxids(b.block) + BranchCanonicals(b.pprev)
  }

  predicate AvoidsAll(block: Block, ids: set<Hash>) {
    forall id | id in ids :: HashesAvoid(block.vtx, id)
  }

  predicate KeepsCanonical(block: Block, ids: set<Hash>) {
    forall i | 0 <= i < |block.vtx| && block.vtx[i].hash in ids :: Canonical(block.vtx[i].vout)
  }

  /** No block of the branch repeats a transaction without outputs of an earlier one, nor the hash of
      a canonical one for another that is not. */
  ghost predicate Unrepeated(b: BlockIndex)
    requires WellFormed(b)
    decreases b.nHeight
  {
    b.pprev == null ||
    (&& AvoidsAll(b.block, BranchNulls(b.pprev)) && KeepsCanonical(b.block, BranchCanonicals(b.pprev))
     && Unrepeated(b.pprev))
  }

  /** Every transaction of the block without outputs finds its entry absent or as created. */
  predicate NullsMatch(w: View, block: Block, nHeight: nat) {
    forall i | 0 <= i < |block.vtx| && AllNull(block.vtx[i].vout) :: OutputsMatch(w, block.vtx[i], nHeight)
  }

  ghost predicate BranchMatches(w: View, b: BlockIndex)
    requires WellFormed(b)
    decreases b.nHeight
  {
    b.pprev == null || (NullsMatch(w, b.block, b.nHeight) && BranchMatches(w, b.pprev))
  }

  ghost predicate AllCanonical(w: View, ids: set<Hash>) {
    forall id | id in ids :: CanonicalCoins(Entry(w, id))
  }

  /** In these coins of `b` the branch's transactions without outputs are as created, and the entries
      of its canonical ones canonical.  Nothing is said about the others. */
  ghost predicate Undisturbed(w: View, b: BlockIndex?) {
    b != null ==>
      WellFormed(b) && Unrepeated(b) && BranchMatches(w, b) && AllCanonical(w, BranchCanonicals(b))
  }

  /** Every transaction has canonical outputs, or none at all. */
  predicate CanonicalBlock(block: Block) {
    forall i | 0 <= i < |block.vtx| :: Canonical(block.vtx[i].vout) || AllNull(block.vtx[i].vout)
  }

  ghost predicate CanonicalBlocks(blocks: seq<BlockIndex>) {
    forall i | 0 <= i < |blocks| :: CanonicalBlock(blocks[i].block)
  }

  ghost predicate AllPruned(view: View, ids: set<Hash>) {
    forall id | id in ids :: Entry(view, id).IsPruned()
  }

  /** Entries are the very same, or gone. */
  ghost predicate EntriesKept(a: View, b: View, ids: set<Hash>) {
    forall id | id in ids :: SameEntry(a, b, id) || id !in b
  }

  lemma NullsMatchKept(a: View, b: View, block: Block, nHeight: nat)
    requires NullsMatch(a, block, nHeight) && EntriesKept(a, b, NullTxids(block))
    ensures NullsMatch(b, block, nHeight)
  {
    hide AllNull, OutputsMatch, SameEntry;
    forall i | 0 <= i < |block.vtx| && AllNull(block.vtx[i].vout)
      ensures OutputsMatch(b, block.vtx[i], nHeight)
    {
      assert block.vtx[i].hash in NullTxids(block);
      KeptEntryMatches(a, b, block.vtx[i], nHeight);
    }
  }

  lemma KeptEntryMatches(a: View, b: View, tx: Transaction, nHeight: nat)
    requires OutputsMatch(a, tx, nHeight) && (SameEntry(a, b, tx.hash) || tx.hash !in b)
    ensures OutputsMatch(b, tx, nHeight)
  {
    hide CoinsEqual;
    if SameEntry(a, b, tx.hash) {
      SameEntryMatches(a, b, tx, nHeight);
    }
  }

  lemma {:induction false} BranchMatchesKept(v: View, w: View, b: BlockIndex)
    requires WellFormed(b) && BranchMatches(v, b) && EntriesKept(v, w, BranchNulls(b))
    ensures BranchMatches(w, b)
    decreases b.nHeight
  {
    hide NullsMatch, NullTxids;
    if b.pprev != null {
      NullsMatchKept(v, w, b.block, b.nHeight);
      BranchMatchesKept(v, w, b.pprev);
    }
  }

  // ---------------------------------------------------------------- connecting

  lemma ConnectElsewhere(view: View, block: Block, nHeight: nat, ids: set<Hash>)
    requires Connect(view, block, nHeight) != None && AllPruned(view, ids) && AvoidsAll(block, ids)
    ensures EntriesKept(view, Connect(view, block, nHeight).value.view, ids)
    ensures AllPruned(Connect(view, block, nHeight).value.view, ids)
  {
    hide ConnectTxs, Coins.IsPruned, CheckBlock, NoOverwrite;
    forall id | id in ids
      ensures SameEntry(view, Connect(view, block, nHeight).value.view, id)
    {
      ConnectTxsElsewhere(view, block.vtx, |block.vtx|, nHeight, id);
    }
  }

  /** Right after connecting, a transaction without outputs has its entry as created. */
  lemma ConnectedNulls(view: View, block: Block, nHeight: nat)
    requires Connect(view, block, nHeight) != None
    ensures AllPruned(Connect(view, block, nHeight).value.view, NullTxids(block))
    ensures NullsMatch(Connect(view, block, nHeight).value.view, block, nHeight)
  {
    hide ConnectTxs, NoOverwrite, CheckTransaction;
    forall i | 0 <= i < |block.vtx| && AllNull(block.vtx[i].vout)
      ensures OutputsMatch(Connect(view, block, nHeight).value.view, block.vtx[i], nHeight)
      ensures Entry(Connect(view, block, nHeight).value.view, block.vtx[i].hash).IsPruned()
    {
      CreatedEntryStays(view, block.vtx, |block.vtx|, nHeight, i);
      CreatedFits(Connect(view, block, nHeight).value.view, block.vtx[i], nHeight);
    }
  }

  lemma ConnectedCanonicals(view: View, block: Block, nHeight: nat, ids: set<Hash>)
    requires Connect(view, block, nHeight) != None && AllCanonical(view, ids) && KeepsCanonical(block, ids)
    ensures AllCanonical(Connect(view, block, nHeight).value.view, ids + CanonicalTxids(block))
  {
    hide ConnectTxs, NoOverwrite, CheckBlock, Canonical, CanonicalCoins;
    forall id | id in ids
      ensures CanonicalCoins(Entry(Connect(view, block, nHeight).value.view, id))
    {
      ConnectTxsCanonical(view, block.vtx, |block.vtx|, nHeight, id);
    }
    forall i | 0 <= i < |block.vtx| && Canonical(block.vtx[i].vout)
      ensures CanonicalCoins(Entry(Connect(view, block, nHeight).value.view, block.vtx[i].hash))
    {
      ConnectCanonical(view, block, nHeight, i);
    }
  }

  /** Along a branch without repetitions, what creates nothing never gets an unspent output. */
  lemma {:induction false} BranchNullsPruned(b: BlockIndex)
    requires WellFormed(b) && Unrepeated(b) && Replay(b) != None
    ensures AllPruned(Replay(b).value, BranchNulls(b))
    decreases b.nHeight
  {
    hide Connect, AvoidsAll, KeepsCanonical, NullTxids, Coins.IsPruned;
    if b.pprev != null {
      BranchNullsPruned(b.pprev);
      ConnectElsewhere(Replay(b.pprev).value, b.block, b.nHeight, BranchNulls(b.pprev));
      ConnectedNulls(Replay(b.pprev).value, b.block, b.nHeight);
    }
  }

  lemma SamePruned(a: View, b: View, ids: set<Hash>)
    requires SameView(a, b) && AllPruned(a, ids)
    ensures AllPruned(b, ids)
  {
    hide Coins.IsPruned, SameCoins;
    forall id | id in ids
      ensures Entry(b, id).IsPruned()
    {
      assert SameCoins(Entry(a, id), Entry(b, id));
      SamePrunedCoins(Entry(a, id), Entry(b, id));
    }
  }

  lemma SamePrunedCoins(c: Coins, d: Coins)
    requires SameCoins(c, d) && c.IsPruned()
    ensures d.IsPruned()
  {
    NormalSlots(c);
    NormalSlots(d);
  }

  /** Connecting the next block of a branch without repetitions leaves the whole of it undisturbed. */
  lemma ConnectUndisturbed(b: BlockIndex, w: View)
    requires WellFormed(b) && b.pprev != null && Replay(b.pprev) != None && SameView(Replay(b.pprev).value, w)
    requires Undisturbed(w, b.pprev) && Unrepeated(b) && Connect(w, b.block, b.nHeight) != None
    ensures Undisturbed(Connect(w, b.block, b.nHeight).value.view, b)
  {
    hide Connect, AvoidsAll, KeepsCanonical, NullsMatch, SameView, AllPruned, EntriesKept, AllCanonical;
    hide NullTxids, CanonicalTxids;
    BranchNullsPruned(b.pprev);
    SamePruned(Replay(b.pprev).value, w, BranchNulls(b.pprev));
    ConnectElsewhere(w, b.block, b.nHeight, BranchNulls(b.pprev));
    BranchMatchesKept(w, Connect(w, b.block, b.nHeight).value.view, b.pprev);
    ConnectedNulls(w, b.block, b.nHeight);
    ConnectedCanonicals(w, b.block, b.nHeight, BranchCanonicals(b.pprev));
    assert BranchCanonicals(b) == BranchCanonicals(b.pprev) + CanonicalTxids(b.block);
  }

  // ---------------------------------------------------------------- disconnecting

  lemma ClearedElsewhere(w: View, block: Block, txid: Hash)
    requires HashesAvoid(block.vtx, txid)
    ensures SameEntry(w, Cleared(w, block), txid)
  {
  }

  lemma ClearedOrSame(w: View, block: Block, txid: Hash)
    ensures Entry(Cleared(w, block), txid) == NO_COINS || Entry(Cleared(w, block), txid) == Entry(w, txid)
  {
  }

  /** Entries that stay completely spent are not touched. */
  lemma TrackedNullsKept(w: View, block: Block, after: View, ids: set<Hash>)
    requires Tracks(Cleared(w, block), after) && AllPruned(after, ids) && AvoidsAll(block, ids)
    ensures EntriesKept(w, after, ids)
  {
    hide Cleared, Regrown, Coins.IsPruned, HashesAvoid;
    forall id | id in ids
      ensures SameEntry(w, after, id)
    {
      ClearedElsewhere(w, block, id);
      assert TracksAt(Cleared(w, block), after, id);
    }
  }

  /** What grows from canonical coins is canonical. */
  lemma TrackedCanonicals(w: View, block: Block, after: View, ids: set<Hash>)
    requires Tracks(Cleared(w, block), after) && AllCanonical(w, ids)
    ensures AllCanonical(after, ids)
  {
    hide Cleared, Regrown, Canonical;
    forall id | id in ids
      ensures CanonicalCoins(Entry(after, id))
    {
      ClearedOrSame(w, block, id);
      assert TracksAt(Cleared(w, block), after, id);
      RegrownCanonical(Base(Entry(Cleared(w, block), id)), Entry(after, id));
    }
  }

  /** Disconnecting leaves the rest of the branch undisturbed. */
  lemma DisconnectUndisturbed(b: BlockIndex, w: View)
    requires WellFormed(b) && b.pprev != null && Replay(b) != None && SameView(Replay(b).value, w)
    requires Undisturbed(w, b)
    requires ReplayUndo(b) != None && UndoFits(b.block.vtx, ReplayUndo(b).value)
    ensures Undisturbed(Disconnect(w, b.block.vtx, ReplayUndo(b).value, |b.block.vtx|), b.pprev)
  {
    hide SameView, Disconnect, DisconnectClean, UndoFits, Connect, NullsMatch, BlockFits;
    hide AllPruned, EntriesKept, AvoidsAll, KeepsCanonical, AllCanonical, Tracks, Cleared, ReplayUndo;
    var after := Disconnect(w, b.block.vtx, ReplayUndo(b).value, |b.block.vtx|);
    TracksStart(w);
    DisconnectReplayTracked(b, w, w);
    DisconnectReplay(b, w);
    BranchNullsPruned(b.pprev);
    SamePruned(Replay(b.pprev).value, after, BranchNulls(b.pprev));
    TrackedNullsKept(w, b.block, after, BranchNulls(b.pprev));
    BranchMatchesKept(w, after, b.pprev);
    FewerCanonicals(w, BranchCanonicals(b), BranchCanonicals(b.pprev));
    TrackedCanonicals(w, b.block, after, BranchCanonicals(b.pprev));
  }

  lemma FewerCanonicals(w: View, ids: set<Hash>, fewer: set<Hash>)
    requires AllCanonical(w, ids) && fewer <= ids
    ensures AllCanonical(w, fewer)
  {
  }

  /** From undisturbed coins a block of transactions with canonical outputs or none is disconnected
      without complaint, whatever the blocks below it hold. */
  lemma UndisturbedIsClean(b: BlockIndex, w: View)
    requires WellFormed(b) && b.pprev != null && Replay(b) != None && SameView(Replay(b).value, w)
    requires Undisturbed(w, b) && CanonicalBlock(b.block)
    ensures BlockFits(w, b.block, b.nHeight)
  {
    hide SameView, Connect, Canonical, AllNull, OutputsMatch, Fits, Recognised, FitsBase, CanonicalCoins;
    forall i | 0 <= i < |b.block.vtx|
      ensures Fits(w, b.block.vtx[i], b.nHeight)
    {
      var tx := b.block.vtx[i];
      if AllNull(tx.vout) {
        NullFits(w, tx, b.nHeight);
      } else {
        assert tx.hash in CanonicalTxids(b.block);
        FitsIffRecognised(Replay(b.pprev).value, w, b.block, b.nHeight, i);
        CanonicalIsRecognised(w, tx, b.nHeight);
      }
    }
  }

  lemma NullFits(w: View, tx: Transaction, nHeight: nat)
    requires AllNull(tx.vout) && OutputsMatch(w, tx, nHeight)
    ensures Fits(w, tx, nHeight)
  {
  }

  lemma CanonicalIsRecognised(w: View, tx: Transaction, nHeight: nat)
    requires Canonical(tx.vout)
    ensures Recognised(w, tx, nHeight)
  {
  }

  // ---------------------------------------------------------------- the database and the branch below

  lemma NoneIsCanonical()
    ensures CanonicalCoins(NO_COINS)
  {
  }

  /** Writing to the database keeps a branch undisturbed. */
  lemma DropsPrunedUndisturbed(v: View, w: View, b: BlockIndex)
    requires DropsPruned(v, w) && Undisturbed(v, b)
    ensures Undisturbed(w, b)
  {
    hide BranchMatches, Unrepeated, CanonicalCoins, BranchCanonicals;
    NoneIsCanonical();
    assert AllCanonical(w, BranchCanonicals(b));
    assert EntriesKept(v, w, BranchNulls(b));
    BranchMatchesKept(v, w, b);
  }

  lemma {:induction false} UnrepeatedBelow(b: BlockIndex, h: nat)
    requires WellFormed(b) && Unrepeated(b) && h <= b.nHeight
    ensures Unrepeated(Ancestor(b, h))
    decreases b.nHeight
  {
    hide AvoidsAll, KeepsCanonical, BranchNulls, BranchCanonicals;
    if h < b.nHeight {
      UnrepeatedBelow(b.pprev, h);
    }
  }
}
