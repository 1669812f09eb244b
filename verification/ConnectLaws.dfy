/** Which blocks can be connected, and which outputs are unspent afterwards. */
module ConnectLaws {
  import opened Transactions
  import opened Coins
  import opened BlockIndexes
  import opened CoinsViews
  import opened CoinUpdates
  import opened BlockTrees

  // ---------------------------------------------------------------- the rules

  /** A transaction that generates coins: its only input refers to no output. */
  predicate Generates(tx: Transaction) {
    |tx.vin| == 1 && tx.vin[0].prevout == OutPoint(0, 0xFFFF_FFFF)
  }

  predicate IsSound(tx: Transaction) {
    && |tx.vin| >= 1 && |tx.vout| >= 1
    && (forall i, j | 0 <= i < j < |tx.vin| :: tx.vin[i].prevout != tx.vin[j].prevout)
    && if Generates(tx) then 2 <= |tx.vin[0].scriptSig| <= 100
       else forall i | 0 <= i < |tx.vin| :: tx.vin[i].prevout != OutPoint(0, 0xFFFF_FFFF)
  }

  /** The output that the transaction creates at this place. */
  function Creates(tx: Transaction, n: nat): Option<TxOut> {
    if n < |tx.vout| && tx.vout[n].nValue != map[] then Some(tx.vout[n]) else None
  }

  predicate SpendsIt(tx: Transaction, out: OutPoint) {
    !Generates(tx) && exists j | 0 <= j < |tx.vin| :: tx.vin[j].prevout == out
  }

  /** The history of one output through the first `k` transactions. */
  function Unspent(view: View, vtx: seq<Transaction>, k: nat, out: OutPoint): Option<TxOut>
    requires k <= |vtx|
    decreases k
  {
    if k == 0 then Utxo(view, out)
    else if vtx[k - 1].hash == out.hash then Creates(vtx[k - 1], out.n)
    else if SpendsIt(vtx[k - 1], out) then None
    else Unspent(view, vtx, k - 1, out)
  }

  /** Everything that the transaction spends is unspent after the `i` before it. */
  predicate CanSpend(view: View, vtx: seq<Transaction>, i: nat)
    requires i < |vtx|
  {
    forall j | 0 <= j < |vtx[i].vin| :: Unspent(view, vtx, i, vtx[i].vin[j].prevout) != None
  }

  ghost predicate NothingLeft(view: View, txid: Hash) {
    forall n: nat :: Utxo(view, OutPoint(txid, n)) == None
  }

  /** The first transaction generates coins and no other does; all are sound and different. */
  predicate IsSoundBlock(block: Block) {
    var vtx := block.vtx;
    && |vtx| >= 1
    && (forall i | 0 <= i < |vtx| :: Generates(vtx[i]) <==> i == 0)
    && (forall i | 0 <= i < |vtx| :: IsSound(vtx[i]))
    && (forall i, j | 0 <= i < j < |vtx| :: vtx[i].hash != vtx[j].hash)
  }

  /** A block that may be connected: sound, no transaction has a hash of which something is still
      unspent, and each spends only what is unspent when its turn comes. */
  ghost predicate Acceptable(view: View, block: Block) {
    var vtx := block.vtx;
    && IsSoundBlock(block)
    && (forall i | 0 <= i < |vtx| :: NothingLeft(view, vtx[i].hash))
    && (forall i | 1 <= i < |vtx| :: CanSpend(view, vtx, i))
  }

  // ---------------------------------------------------------------- one transaction

  lemma CheckedIsSound(tx: Transaction)
    ensures tx.IsCoinBase() <==> Generates(tx)
    ensures CheckTransaction(tx) <==> IsSound(tx)
  {
  }

  lemma CreatedSlot(tx: Transaction, nHeight: nat, n: nat)
    ensures TxCoins(tx, nHeight).Slot(n) == Creates(tx, n)
  {
  }

  lemma PrunedIsNothing(view: View, txid: Hash)
    ensures Entry(view, txid).IsPruned() <==> NothingLeft(view, txid)
  {
    PrunedSlots(Entry(view, txid));
    forall n: nat
      ensures Utxo(view, OutPoint(txid, n)) == Entry(view, txid).Slot(n)
    {
    }
  }

  /** One transaction adds what it creates and takes what it spends. */
  lemma ConnectTxSlots(c: Connected, tx: Transaction, nHeight: nat, out: OutPoint)
    requires ConnectTx(c, tx, nHeight) != None
    ensures Utxo(ConnectTx(c, tx, nHeight).value.view, out) ==
      if tx.hash == out.hash then Creates(tx, out.n) else if SpendsIt(tx, out) then None else Utxo(c.view, out)
  {
    hide InputsAvailable, SpendInputs;
    CheckedIsSound(tx);
    if tx.hash == out.hash {
      CreatedSlot(tx, nHeight, out.n);
    } else if !tx.IsCoinBase() {
      SpendInputsSlots(c.view, tx.vin, |tx.vin|, out);
    }
  }

  lemma ConnectTxIff(c: Connected, tx: Transaction, nHeight: nat)
    requires CheckTransaction(tx)
    ensures ConnectTx(c, tx, nHeight) != None <==>
      tx.IsCoinBase() || forall j | 0 <= j < |tx.vin| :: Utxo(c.view, tx.vin[j].prevout) != None
  {
    hide Utxo, SpendInputs;
    if !tx.IsCoinBase() && InputsAvailable(c.view, tx.vin) {
      SpendInputsDefined(c.view, tx.vin, |tx.vin|);
    }
  }

  // ---------------------------------------------------------------- several transactions

  lemma {:induction false} ConnectTxsSlots(view: View, vtx: seq<Transaction>, k: nat, nHeight: nat, out: OutPoint)
    requires k <= |vtx| && ConnectTxs(view, vtx, k, nHeight) != None
    ensures Utxo(ConnectTxs(view, vtx, k, nHeight).value.view, out) == Unspent(view, vtx, k, out)
    decreases k
  {
    hide ConnectTx, Utxo, Creates, SpendsIt;
    if k > 0 {
      ConnectTxsSlots(view, vtx, k - 1, nHeight, out);
      ConnectTxSlots(ConnectTxs(view, vtx, k - 1, nHeight).value, vtx[k - 1], nHeight, out);
    }
  }

  lemma {:induction false} ConnectTxsIff(view: View, vtx: seq<Transaction>, k: nat, nHeight: nat)
    requires k <= |vtx| && forall i | 0 <= i < |vtx| :: CheckTransaction(vtx[i])
    ensures ConnectTxs(view, vtx, k, nHeight) != None <==>
      forall i | 0 <= i < k :: Generates(vtx[i]) || CanSpend(view, vtx, i)
    decreases k
  {
    hide ConnectTx, CheckTransaction, Generates, Unspent, Utxo;
    if k > 0 {
      ConnectTxsIff(view, vtx, k - 1, nHeight);
      var tx := vtx[k - 1];
      if ConnectTxs(view, vtx, k - 1, nHeight) != None {
        ConnectTxIff(ConnectTxs(view, vtx, k - 1, nHeight).value, tx, nHeight);
        CheckedIsSound(tx);
        forall j | 0 <= j < |tx.vin|
          ensures Utxo(ConnectTxs(view, vtx, k - 1, nHeight).value.view, tx.vin[j].prevout) ==
            Unspent(view, vtx, k - 1, tx.vin[j].prevout)
        {
          ConnectTxsSlots(view, vtx, k - 1, nHeight, tx.vin[j].prevout);
        }
      }
    }
  }

  // ---------------------------------------------------------------- a block

  lemma CheckedIsSoundBlock(block: Block)
    ensures CheckBlock(block) <==> IsSoundBlock(block)
  {
    hide CheckTransaction, IsSound, Generates;
    forall i | 0 <= i < |block.vtx|
      ensures block.vtx[i].IsCoinBase() <==> Generates(block.vtx[i])
      ensures CheckTransaction(block.vtx[i]) <==> IsSound(block.vtx[i])
    {
      CheckedIsSound(block.vtx[i]);
    }
  }

  /** A block is refused for a missing or repeated coinbase, an unsound or repeated transaction, a
      hash of which something is unspent, or an input that is not there; and for nothing else. */
  lemma ConnectsIff(view: View, block: Block, nHeight: nat)
    ensures Connect(view, block, nHeight) != None <==> Acceptable(view, block)
  {
    hide CheckTransaction, IsSound, Generates, NothingLeft, CanSpend, ConnectTxs;
    CheckedIsSoundBlock(block);
    forall i | 0 <= i < |block.vtx|
      ensures Entry(view, block.vtx[i].hash).IsPruned() <==> NothingLeft(view, block.vtx[i].hash)
    {
      PrunedIsNothing(view, block.vtx[i].hash);
    }
    if CheckBlock(block) {
      ConnectTxsIff(view, block.vtx, |block.vtx|, nHeight);
    }
  }

  predicate SpentBy(vtx: seq<Transaction>, k: nat, out: OutPoint)
    requires k <= |vtx|
  {
    exists i | 0 <= i < k :: SpendsIt(vtx[i], out)
  }

  /** Outputs of transaction `i` are not there before it. */
  lemma {:induction false} NotYet(view: View, block: Block, k: nat, i: nat, n: nat)
    requires Acceptable(view, block) && k <= i < |block.vtx|
    ensures Unspent(view, block.vtx, k, OutPoint(block.vtx[i].hash, n)) == None
    decreases k
  {
    hide Utxo, Creates, SpendsIt, CanSpend, IsSound, Generates;
    if k > 0 {
      NotYet(view, block, k - 1, i, n);
    }
  }

  lemma CannotSpend(view: View, block: Block, k: nat, out: OutPoint)
    requires Acceptable(view, block) && k < |block.vtx| && Unspent(view, block.vtx, k, out) == None
    ensures !SpendsIt(block.vtx[k], out)
  {
    hide Unspent, IsSound, NothingLeft;
    if k > 0 {
      assert CanSpend(view, block.vtx, k);
    }
  }

  lemma SpentByStep(vtx: seq<Transaction>, k: nat, out: OutPoint)
    requires k < |vtx|
    ensures SpentBy(vtx, k + 1, out) <==> SpentBy(vtx, k, out) || SpendsIt(vtx[k], out)
  {
    hide SpendsIt;
  }

  /** An output that was spent in the block stays spent. */
  lemma {:induction false} SpentStays(view: View, block: Block, k: nat, out: OutPoint)
    requires Acceptable(view, block) && k <= |block.vtx| && SpentBy(block.vtx, k, out)
    ensures Unspent(view, block.vtx, k, out) == None
    decreases k
  {
    hide Utxo, Creates, SpendsIt, CanSpend, IsSound, Generates, NothingLeft, Acceptable, SpentBy;
    if k == 0 {
      NothingSpent(block.vtx, out);
    } else {
      SpentByStep(block.vtx, k - 1, out);
      if SpentBy(block.vtx, k - 1, out) {
        SpentStays(view, block, k - 1, out);
      }
      if block.vtx[k - 1].hash == out.hash {
        NotSpentBefore(view, block, k, k - 1, out);
      }
    }
  }

  lemma NothingSpent(vtx: seq<Transaction>, out: OutPoint)
    ensures !SpentBy(vtx, 0, out)
  {
  }

  /** What a transaction creates is not spent up to and including it. */
  lemma {:induction false} NotSpentBefore(view: View, block: Block, k: nat, i: nat, out: OutPoint)
    requires Acceptable(view, block) && k <= i + 1 && i < |block.vtx| && out.hash == block.vtx[i].hash
    ensures !SpentBy(block.vtx, k, out)
    decreases k
  {
    hide Unspent, SpendsIt, Acceptable;
    if k > 0 {
      NotSpentBefore(view, block, k - 1, i, out);
      NotYet(view, block, k - 1, i, out.n);
      assert OutPoint(block.vtx[i].hash, out.n) == out;
      CannotSpend(view, block, k - 1, out);
    }
  }

  /** What of the transactions' own outputs and of the others is not spent by the block is there. */
  lemma {:induction false} UnspentStays(view: View, block: Block, k: nat, out: OutPoint)
    requires Acceptable(view, block) && k <= |block.vtx| && !SpentBy(block.vtx, k, out)
    ensures forall i | 0 <= i < k && block.vtx[i].hash == out.hash ::
      Unspent(view, block.vtx, k, out) == Creates(block.vtx[i], out.n)
    ensures (forall i | 0 <= i < k :: block.vtx[i].hash != out.hash) ==>
      Unspent(view, block.vtx, k, out) == Utxo(view, out)
    decreases k
  {
    hide Utxo, Creates, SpendsIt, CanSpend, IsSound, Generates, NothingLeft, SpentBy;
    if k > 0 {
      SpentByStep(block.vtx, k - 1, out);
      UnspentStays(view, block, k - 1, out);
    }
  }

  /** After a block exactly this is unspent: what it created and what was unspent before, less what
      it spends.  New outputs carry the block's height, their transaction's version, and whether it
      generates coins; the others are as they were. */
  lemma ConnectedOutputs(view: View, block: Block, nHeight: nat, out: OutPoint)
    requires Connect(view, block, nHeight) != None
    ensures var now := Utxo(Connect(view, block, nHeight).value.view, out);
      && (SpentBy(block.vtx, |block.vtx|, out) ==> now == None)
      && (!SpentBy(block.vtx, |block.vtx|, out) ==>
            && (forall i | 0 <= i < |block.vtx| && block.vtx[i].hash == out.hash :: now == Creates(block.vtx[i], out.n))
            && ((forall i | 0 <= i < |block.vtx| :: block.vtx[i].hash != out.hash) ==> now == Utxo(view, out)))
  {
    hide Utxo, Creates, SpentBy, Unspent, ConnectTxs, CheckBlock, NoOverwrite, Acceptable;
    ConnectsIff(view, block, nHeight);
    ConnectTxsSlots(view, block.vtx, |block.vtx|, nHeight, out);
    if SpentBy(block.vtx, |block.vtx|, out) {
      SpentStays(view, block, |block.vtx|, out);
    } else {
      UnspentStays(view, block, |block.vtx|, out);
    }
  }

  /** No two inputs of the block spend the same output. */
  lemma NoDoubleSpend(view: View, block: Block, nHeight: nat, i: nat, j: nat, k: nat, l: nat)
    requires Connect(view, block, nHeight) != None && 1 <= i <= k < |block.vtx|
    requires j < |block.vtx[i].vin| && l < |block.vtx[k].vin| && (i, j) != (k, l)
    ensures block.vtx[i].vin[j].prevout != block.vtx[k].vin[l].prevout
  {
    ConnectsIff(view, block, nHeight);
    hide Unspent, Connect, NothingLeft;
    var out := block.vtx[i].vin[j].prevout;
    assert IsSound(block.vtx[i]) && CanSpend(view, block.vtx, k);
    if i < k && out == block.vtx[k].vin[l].prevout {
      assert SpendsIt(block.vtx[i], out);
      SpentStays(view, block, k, out);
    }
  }

  // ---------------------------------------------------------------- metadata

  predicate SameMetadata(c: Coins, d: Coins) {
    c.fCoinBase == d.fCoinBase && c.nHeight == d.nHeight && c.nVersion == d.nVersion
  }

  lemma {:induction false} SpendKeepsMetadata(view: View, vin: seq<TxIn>, k: nat, txid: Hash)
    requires k <= |vin| && SpendInputs(view, vin, k) != None
    ensures SameMetadata(Entry(SpendInputs(view, vin, k).value.view, txid), Entry(view, txid))
    decreases k
  {
    hide Coins.SpendUndo, Coins.IsAvailable;
    if k > 0 {
      SpendKeepsMetadata(view, vin, k - 1, txid);
    }
  }

  lemma ConnectTxMetadata(c: Connected, tx: Transaction, nHeight: nat, txid: Hash)
    requires ConnectTx(c, tx, nHeight) != None
    ensures SameMetadata(Entry(ConnectTx(c, tx, nHeight).value.view, txid),
      if tx.hash == txid then Coins(Generates(tx), [], nHeight, tx.nVersion) else Entry(c.view, txid))
  {
    hide SpendInputs, InputsAvailable;
    if tx.hash != txid && !tx.IsCoinBase() {
      SpendKeepsMetadata(c.view, tx.vin, |tx.vin|, txid);
    }
  }

  lemma {:induction false} ConnectTxsMetadata(view: View, vtx: seq<Transaction>, k: nat, nHeight: nat, txid: Hash)
    requires DistinctHashes(vtx) && k <= |vtx| && ConnectTxs(view, vtx, k, nHeight) != None
    ensures forall i | 0 <= i < k && vtx[i].hash == txid ::
      SameMetadata(Entry(ConnectTxs(view, vtx, k, nHeight).value.view, txid),
                   Coins(Generates(vtx[i]), [], nHeight, vtx[i].nVersion))
    ensures (forall i | 0 <= i < k :: vtx[i].hash != txid) ==>
      SameMetadata(Entry(ConnectTxs(view, vtx, k, nHeight).value.view, txid), Entry(view, txid))
    decreases k
  {
    hide ConnectTx, Generates, Entry;
    if k > 0 {
      ConnectTxsMetadata(view, vtx, k - 1, nHeight, txid);
      ConnectTxMetadata(ConnectTxs(view, vtx, k - 1, nHeight).value, vtx[k - 1], nHeight, txid);
    }
  }

  /** New entries carry the block's height, their transaction's version and whether it generates coins,
      which the first one does and no other; all other entries keep what they had. */
  lemma ConnectedMetadata(view: View, block: Block, nHeight: nat, txid: Hash)
    requires Connect(view, block, nHeight) != None
    ensures var now := Entry(Connect(view, block, nHeight).value.view, txid);
      && (forall i | 0 <= i < |block.vtx| && block.vtx[i].hash == txid ::
            now.fCoinBase == (i == 0) && now.nHeight == nHeight && now.nVersion == block.vtx[i].nVersion)
      && ((forall i | 0 <= i < |block.vtx| :: block.vtx[i].hash != txid) ==> SameMetadata(now, Entry(view, txid)))
  {
    hide Entry, ConnectTxs, CheckTransaction, NoOverwrite;
    ConnectTxsMetadata(view, block.vtx, |block.vtx|, nHeight, txid);
  }

  /** The smallest block: nothing but a coinbase. */
  lemma CoinbaseAlone(view: View, hash: Hash, tx: Transaction, nHeight: nat)
    requires Generates(tx) && IsSound(tx) && NothingLeft(view, tx.hash)
    ensures Connect(view, Block(hash, [tx]), nHeight) ==
      Some(Connected(view[tx.hash := Coins(true, tx.vout, nHeight, tx.nVersion)], []))
  {
    var vtx := [tx];
    CheckedIsSound(tx);
    PrunedIsNothing(view, tx.hash);
    assert ConnectTxs(view, vtx, 0, nHeight) == Some(Connected(view, []));
    assert vtx[1 - 1] == tx;
  }

  /** When disconnecting, an entry is found as it was created exactly when all of this agrees.  A
      negative version is not compared, because it does not survive being stored. */
  lemma MatchesIff(view: View, tx: Transaction, nHeight: nat)
    requires tx.hash in view
    ensures var e := view[tx.hash];
      OutputsMatch(view, tx, nHeight) <==>
        && e.fCoinBase == Generates(tx) && e.nHeight == nHeight && (tx.nVersion < 0 || e.nVersion == tx.nVersion)
        && |e.vout| == |tx.vout|
        && forall n | 0 <= n < |tx.vout| ::
             CashEquals(e.vout[n].nValue, tx.vout[n].nValue) && e.vout[n].scriptPubKey == tx.vout[n].scriptPubKey
  {
    hide CashEquals;
  }

  // ---------------------------------------------------------------- a branch

  /** The history of one output along a branch.  The first block leaves nothing to spend. */
  ghost function BranchUnspent(b: BlockIndex, out: OutPoint): Option<TxOut>
    requires WellFormed(b)
    decreases b.nHeight
  {
    if b.pprev == null then None
    else if SpentBy(b.block.vtx, |b.block.vtx|, out) then None
    else if i: nat :| i < |b.block.vtx| && b.block.vtx[i].hash == out.hash then Creates(b.block.vtx[i], out.n)
    else BranchUnspent(b.pprev, out)
  }

  /** A branch can be replayed when its first block is sound and every other acceptable after those
      before it. */
  lemma ReplaysIff(b: BlockIndex)
    requires WellFormed(b)
    ensures Replay(b) != None <==>
      if b.pprev == null then IsSoundBlock(b.block)
      else Replay(b.pprev) != None && Acceptable(Replay(b.pprev).value, b.block)
  {
    hide Connect, CheckBlock, Acceptable, IsSoundBlock;
    CheckedIsSoundBlock(b.block);
    if b.pprev != null && Replay(b.pprev) != None {
      ConnectsIff(Replay(b.pprev).value, b.block, b.nHeight);
    }
  }

  /** The coins of a branch are what its blocks created and did not spend. */
  lemma {:induction false} ReplayedOutputs(b: BlockIndex, out: OutPoint)
    requires WellFormed(b) && Replay(b) != None
    ensures Utxo(Replay(b).value, out) == BranchUnspent(b, out)
    decreases b.nHeight
  {
    hide Connect, Creates, SpentBy;
    if b.pprev != null {
      ReplayedOutputs(b.pprev, out);
      ConnectedOutputs(Replay(b.pprev).value, b.block, b.nHeight, out);
    }
  }
}
