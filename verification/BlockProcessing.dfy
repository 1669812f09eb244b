/** Connecting and disconnecting blocks on a stack of coin views. */
module BlockProcessing {
  import opened Transactions
  import opened Coins
  import opened BlockIndexes
  import opened CoinsViews
  import opened CoinUpdates

  /** Are all inputs known, and then, are all of them unspent? */
  method HaveInputs(tx: Transaction, view: CoinsViewCache) returns (have: bool)
    requires view.Valid()
    modifies view.Repr
    ensures view.Visible() == old(view.Visible()) && view.Tip() == old(view.Tip())
    ensures view.pindexTip == old(view.pindexTip)
    ensures view.Beneath() == old(view.Beneath())
    ensures have == (tx.IsCoinBase() || InputsAvailable(view.Visible(), tx.vin))
  {
    if tx.IsCoinBase() {
      return true;
    }
    for i := 0 to |tx.vin|
      invariant view.Visible() == old(view.Visible()) && view.Tip() == old(view.Tip())
      invariant view.pindexTip == old(view.pindexTip)
      invariant view.Beneath() == old(view.Beneath())
    {
      var known := view.HaveCoins(tx.vin[i].prevout.hash);
      if !known {
        assert Utxo(view.Visible(), tx.vin[i].prevout) == None;
        return false;
      }
    }
    for i := 0 to |tx.vin|
      invariant view.Visible() == old(view.Visible()) && view.Tip() == old(view.Tip())
      invariant view.pindexTip == old(view.pindexTip)
      invariant view.Beneath() == old(view.Beneath())
      invariant forall j | 0 <= j < i :: Utxo(view.Visible(), tx.vin[j].prevout) != None
    {
      var _, coins := view.GetCoins(tx.vin[i].prevout.hash);
      if !coins.IsAvailable(tx.vin[i].prevout.n) {
        assert Utxo(view.Visible(), tx.vin[i].prevout) == None;
        return false;
      }
    }
    have := true;
  }

  /** Mark the inputs spent, collecting undo records, and add the outputs.  The requirement is what
      the program asserts of every spend. */
  method UpdateCoins(tx: Transaction, view: CoinsViewCache, nHeight: nat) returns (undo: TxUndo)
    requires view.Valid() && SpendAll(view.Visible(), tx) != None
    modifies view.Repr
    ensures view.Tip() == old(view.Tip()) && view.pindexTip == old(view.pindexTip)
    ensures view.Beneath() == old(view.Beneath())
    ensures view.Visible() == Put(SpendAll(old(view.Visible()), tx).value.view, tx.hash, TxCoins(tx, nHeight))
    ensures undo == SpendAll(old(view.Visible()), tx).value.undo
  {
    undo := [];
    if !tx.IsCoinBase() {
      undo := SpendInputsOf(tx.vin, view);
    }
    view.SetCoins(tx.hash, TxCoins(tx, nHeight));
  }

  /** The loop of UpdateCoins over the inputs. */
  method SpendInputsOf(vin: seq<TxIn>, view: CoinsViewCache) returns (undo: TxUndo)
    requires view.Valid() && SpendInputs(view.Visible(), vin, |vin|) != None
    modifies view.Repr
    ensures view.Tip() == old(view.Tip()) && view.pindexTip == old(view.pindexTip)
    ensures view.Beneath() == old(view.Beneath())
    ensures SpendInputs(old(view.Visible()), vin, |vin|) == Some(Spending(view.Visible(), undo))
  {
    hide *;
    ghost var before := view.Visible();
    undo := [];
    SpendNothing(before, vin);
    for i := 0 to |vin|
      invariant view.Tip() == old(view.Tip()) && view.pindexTip == old(view.pindexTip)
      invariant view.Beneath() == old(view.Beneath())
      invariant SpendInputs(before, vin, i) == Some(Spending(view.Visible(), undo))
    {
      SpendInputsNext(before, vin, i);
      var record := SpendFromView(vin[i].prevout, view, undo);
      undo := undo + [record];
    }
  }

  lemma SpendNothing(view: View, vin: seq<TxIn>)
    ensures SpendInputs(view, vin, 0) == Some(Spending(view, []))
  {
  }

  lemma {:induction false} SpendInputsEarlier(view: View, vin: seq<TxIn>, j: nat, k: nat)
    requires j <= k <= |vin| && SpendInputs(view, vin, k) != None
    ensures SpendInputs(view, vin, j) != None
    decreases k
  {
    hide SpendInput;
    if j < k {
      SpendInputsEarlier(view, vin, j, k - 1);
    }
  }

  lemma SpendInputsNext(view: View, vin: seq<TxIn>, i: nat)
    requires i < |vin| && SpendInputs(view, vin, |vin|) != None
    ensures SpendInputs(view, vin, i) != None
    ensures SpendInputs(view, vin, i + 1) == SpendInput(SpendInputs(view, vin, i).value, vin[i].prevout) != None
  {
    hide SpendInput;
    SpendInputsEarlier(view, vin, i, |vin|);
    SpendInputsEarlier(view, vin, i + 1, |vin|);
  }

  /** Spend one output, after those that led to `undo`. */
  method SpendFromView(out: OutPoint, view: CoinsViewCache, ghost undo: TxUndo) returns (record: InUndo)
    requires view.Valid() && SpendInput(Spending(view.Visible(), undo), out) != None
    modifies view.Repr
    ensures view.Tip() == old(view.Tip()) && view.pindexTip == old(view.pindexTip)
    ensures view.Beneath() == old(view.Beneath())
    ensures SpendInput(Spending(old(view.Visible()), undo), out) == Some(Spending(view.Visible(), undo + [record]))
  {
    ghost var before := view.Visible();
    var _, coins := view.GetCoins(out.hash);
    var ok;
    ok, coins, record := coins.Spend(out.n);
    assert ok;
    view.SetCoins(out.hash, coins);
    assert view.Visible() == Put(before, out.hash, coins);
  }

  method HasDuplicateInputs(vin: seq<TxIn>) returns (duplicate: bool)
    ensures duplicate == !DistinctPrevouts(vin)
  {
    var vInOutPoints: set<OutPoint> := {};
    for i := 0 to |vin|
      invariant forall out :: out in vInOutPoints <==> exists j | 0 <= j < i :: vin[j].prevout == out
      invariant DistinctPrevouts(vin[..i])
    {
      if vin[i].prevout in vInOutPoints {
        return true;
      }
      vInOutPoints := vInOutPoints + {vin[i].prevout};
    }
    assert vin[..|vin|] == vin;
    duplicate := false;
  }

  /** Does the transaction pass the checks that need no context? */
  method PassesCheckTransaction(tx: Transaction) returns (ok: bool)
    ensures ok == CheckTransaction(tx)
  {
    if |tx.vin| == 0 || |tx.vout| == 0 {
      return false;
    }
    var duplicate := HasDuplicateInputs(tx.vin);
    if duplicate {
      return false;
    }
    if tx.IsCoinBase() {
      return 2 <= |tx.vin[0].scriptSig| <= 100;
    }
    for i := 0 to |tx.vin|
      invariant forall j | 0 <= j < i :: !tx.vin[j].prevout.IsNull()
    {
      if tx.vin[i].prevout.IsNull() {
        return false;
      }
    }
    ok := true;
  }

  /** Are all transactions different?  The size of the set of their hashes tells. */
  method AllUnique(vtx: seq<Transaction>) returns (unique: bool)
    ensures unique == DistinctHashes(vtx)
  {
    var uniqueTx: set<Hash> := {};
    assert DistinctHashes(vtx[..0]);
    hide DistinctHashes;
    for i := 0 to |vtx|
      invariant forall id :: id in uniqueTx <==> exists j | 0 <= j < i :: vtx[j].hash == id
      invariant |uniqueTx| <= i && (|uniqueTx| == i <==> DistinctHashes(vtx[..i]))
    {
      ghost var before := uniqueTx;
      uniqueTx := uniqueTx + {vtx[i].hash};
      OneMoreHash(vtx, i, before);
    }
    assert vtx[..|vtx|] == vtx;
    unique := |uniqueTx| == |vtx|;
  }

  lemma OneMoreHash(vtx: seq<Transaction>, i: nat, ids: set<Hash>)
    requires i < |vtx| && forall id :: id in ids <==> exists j | 0 <= j < i :: vtx[j].hash == id
    ensures DistinctHashes(vtx[..i + 1]) <==> DistinctHashes(vtx[..i]) && vtx[i].hash !in ids
    ensures |ids + {vtx[i].hash}| == |ids| + if vtx[i].hash in ids then 0 else 1
  {
    var now, next := vtx[..i], vtx[..i + 1];
    forall j, k | 0 <= j < k < i
      ensures now[j].hash == next[j].hash && now[k].hash == next[k].hash
    {
    }
    if vtx[i].hash in ids {
      assert ids + {vtx[i].hash} == ids;
      var j :| 0 <= j < i && vtx[j].hash == vtx[i].hash;
      assert next[j].hash == next[i].hash;
    }
  }

  /** Does the block pass the checks that need no context? */
  method PassesCheckBlock(block: Block) returns (ok: bool)
    ensures ok == CheckBlock(block)
  {
    hide CheckTransaction;
    var vtx := block.vtx;
    if |vtx| == 0 || !vtx[0].IsCoinBase() {
      return false;
    }
    for i := 1 to |vtx|
      invariant forall j | 1 <= j < i :: !vtx[j].IsCoinBase()
    {
      if vtx[i].IsCoinBase() {
        return false;
      }
    }
    for i := 0 to |vtx|
      invariant forall j | 0 <= j < i :: CheckTransaction(vtx[j])
    {
      ok := PassesCheckTransaction(vtx[i]);
      if !ok {
        return false;
      }
    }
    ok := AllUnique(vtx);
  }

  /** Connect a block.  `otherChecks` says whether everything passed that does not concern which
      outputs exist: scripts, signature counts, amounts. */
  method ConnectBlock(pindex: BlockIndex, view: CoinsViewCache, otherChecks: bool) returns (ok: bool)
    requires view.Valid() && pindex.pprev == view.Tip()
    modifies view.Repr, pindex`undo
    ensures view.Beneath() == old(view.Beneath())
    ensures ok == (CheckBlock(pindex.block) &&
      (pindex.pprev == null || (otherChecks && Connect(old(view.Visible()), pindex.block, pindex.nHeight) != None)))
    ensures !ok ==> pindex.undo == old(pindex.undo)
    ensures ok ==> view.Tip() == view.pindexTip == pindex
    ensures ok && pindex.pprev == null ==> view.Visible() == old(view.Visible()) && pindex.undo == old(pindex.undo)
    ensures ok && pindex.pprev != null ==>
      var connected := Connect(old(view.Visible()), pindex.block, pindex.nHeight).value;
      && view.Visible() == connected.view
      && pindex.undo == if old(pindex.undo) == None then Some(connected.undo) else old(pindex.undo)
  {
    var vtx := pindex.block.vtx;
    ok := PassesCheckBlock(pindex.block);
    if !ok {
      return false;
    }
    if pindex.pprev == null {
      // The genesis block: its coinbase cannot be spent, so nothing is connected.
      view.SetBestBlock(pindex);
      return true;
    }
    var undo;
    ok, undo := ConnectTransactions(vtx, pindex.nHeight, view);
    if !ok || !otherChecks {
      return false;
    }
    if pindex.undo == None {
      pindex.undo := Some(undo);
    }
    view.SetBestBlock(pindex);
  }

  method OverwritesNothing(vtx: seq<Transaction>, view: CoinsViewCache) returns (ok: bool)
    requires view.Valid()
    modifies view.Repr
    ensures view.Visible() == old(view.Visible()) && view.Tip() == old(view.Tip())
    ensures view.Beneath() == old(view.Beneath())
    ensures ok == NoOverwrite(view.Visible(), vtx)
  {
    for i := 0 to |vtx|
      invariant view.Visible() == old(view.Visible()) && view.Tip() == old(view.Tip())
      invariant view.Beneath() == old(view.Beneath())
      invariant forall j | 0 <= j < i :: Entry(view.Visible(), vtx[j].hash).IsPruned()
    {
      var have, coins := view.GetCoins(vtx[i].hash);
      if have && !coins.IsPruned() {
        assert !Entry(view.Visible(), vtx[i].hash).IsPruned();
        return false;
      }
    }
    ok := true;
  }

  /** The loops of ConnectBlock over the transactions. */
  method ConnectTransactions(vtx: seq<Transaction>, nHeight: nat, view: CoinsViewCache)
    returns (ok: bool, undo: BlockUndo)
    requires view.Valid() && forall i | 0 <= i < |vtx| :: DistinctPrevouts(vtx[i].vin)
    modifies view.Repr
    ensures view.Tip() == old(view.Tip())
    ensures view.Beneath() == old(view.Beneath())
    ensures ok ==
      (NoOverwrite(old(view.Visible()), vtx) && ConnectTxs(old(view.Visible()), vtx, |vtx|, nHeight) != None)
    ensures ok ==> ConnectTxs(old(view.Visible()), vtx, |vtx|, nHeight) == Some(Connected(view.Visible(), undo))
  {
    hide *;
    ghost var before := view.Visible();
    undo := [];
    ok := OverwritesNothing(vtx, view);
    if !ok {
      return;
    }
    ConnectNothing(before, vtx, nHeight);
    for i := 0 to |vtx|
      invariant view.Tip() == old(view.Tip())
      invariant view.Beneath() == old(view.Beneath())
      invariant ConnectTxs(before, vtx, i, nHeight) == Some(Connected(view.Visible(), undo))
    {
      ConnectTxsNext(before, vtx, i, nHeight);
      ok, undo := ConnectTransaction(vtx[i], nHeight, view, undo);
      if !ok {
        ConnectTxsLater(before, vtx, i + 1, |vtx|, nHeight);
        return;
      }
    }
  }

  /** One turn of that loop: check the inputs, spend them, add the outputs. */
  method ConnectTransaction(tx: Transaction, nHeight: nat, view: CoinsViewCache, before: BlockUndo)
    returns (ok: bool, undo: BlockUndo)
    requires view.Valid() && DistinctPrevouts(tx.vin)
    modifies view.Repr
    ensures view.Tip() == old(view.Tip())
    ensures view.Beneath() == old(view.Beneath())
    ensures ok == (ConnectTx(Connected(old(view.Visible()), before), tx, nHeight) != None)
    ensures ok ==>
      ConnectTx(Connected(old(view.Visible()), before), tx, nHeight) == Some(Connected(view.Visible(), undo))
  {
    hide InputsAvailable, SpendInputs, DistinctPrevouts;
    undo := before;
    ok := HaveInputs(tx, view);
    if !ok {
      return;
    }
    if !tx.IsCoinBase() {
      SpendInputsDefined(view.Visible(), tx.vin, |tx.vin|);
    }
    var record := UpdateCoins(tx, view, nHeight);
    if !tx.IsCoinBase() {
      undo := undo + [record];
    }
  }

  lemma ConnectNothing(view: View, vtx: seq<Transaction>, nHeight: nat)
    ensures ConnectTxs(view, vtx, 0, nHeight) == Some(Connected(view, []))
  {
  }

  lemma ConnectTxsNext(view: View, vtx: seq<Transaction>, i: nat, nHeight: nat)
    requires i < |vtx| && ConnectTxs(view, vtx, i, nHeight) != None
    ensures ConnectTxs(view, vtx, i + 1, nHeight) == ConnectTx(ConnectTxs(view, vtx, i, nHeight).value, vtx[i], nHeight)
  {
    hide ConnectTx;
  }

  lemma {:induction false} ConnectTxsLater(view: View, vtx: seq<Transaction>, j: nat, k: nat, nHeight: nat)
    requires j <= k <= |vtx| && ConnectTxs(view, vtx, j, nHeight) == None
    ensures ConnectTxs(view, vtx, k, nHeight) == None
    decreases k
  {
    hide ConnectTx;
    if j < k {
      ConnectTxsLater(view, vtx, j, k - 1, nHeight);
    }
  }

  /** Check that a transaction's outputs are there as it created them, and remove them. */
  method RemoveOutputs(tx: Transaction, nHeight: nat, view: CoinsViewCache) returns (clean: bool)
    requires view.Valid()
    modifies view.Repr
    ensures view.Tip() == old(view.Tip())
    ensures view.Beneath() == old(view.Beneath())
    ensures clean == OutputsMatch(old(view.Visible()), tx, nHeight)
    ensures view.Visible() == Put(old(view.Visible()), tx.hash, NO_COINS)
  {
    ghost var before := view.Visible();
    var have := view.HaveCoins(tx.hash);
    if !have {
      view.SetCoins(tx.hash, TxCoins(tx, nHeight));
      TxOutsEqualReflexive(tx.vout);
    }
    var _, outs := view.GetCoins(tx.hash);
    var outsBlock := TxCoins(tx, nHeight);
    if outsBlock.nVersion < 0 {
      outs := outs.(nVersion := outsBlock.nVersion);
    }
    clean := CoinsEqual(outs, outsBlock);
    view.SetCoins(tx.hash, NO_COINS);
    assert view.Visible() == Put(before, tx.hash, NO_COINS);
  }

  /** Put one output back. */
  method RestoreIntoView(out: OutPoint, record: InUndo, view: CoinsViewCache) returns (clean: bool)
    requires view.Valid()
    modifies view.Repr
    ensures view.Tip() == old(view.Tip())
    ensures view.Beneath() == old(view.Beneath())
    ensures clean == RestoreInputClean(old(view.Visible()), out, record)
    ensures view.Visible() == RestoreInput(old(view.Visible()), out, record)
  {
    clean := true;
    var _, coins := view.GetCoins(out.hash);
    if record.nHeight != 0 {
      // The record holds a height: it is for the last output of its transaction.
      if !coins.IsPruned() {
        clean := false;
      }
      coins := Coins(record.fCoinBase, [], record.nHeight, record.nVersion);
    } else {
      if coins.IsPruned() {
        clean := false;
      }
    }
    if coins.IsAvailable(out.n) {
      clean := false;
    }
    if |coins.vout| < out.n + 1 {
      coins := coins.Resized(out.n + 1);
    }
    coins := coins.(vout := coins.vout[out.n := record.txout]);
    view.SetCoins(out.hash, coins);
  }

  method RestoreTransactionInputs(vin: seq<TxIn>, undo: TxUndo, view: CoinsViewCache) returns (clean: bool)
    requires view.Valid() && |vin| == |undo|
    modifies view.Repr
    ensures view.Tip() == old(view.Tip())
    ensures view.Beneath() == old(view.Beneath())
    ensures clean == RestoreInputsClean(old(view.Visible()), vin, undo, |vin|)
    ensures view.Visible() == RestoreInputs(old(view.Visible()), vin, undo, |vin|)
  {
    clean := true;
    ghost var before := view.Visible();
    var j := |vin|;
    while j > 0
      invariant 0 <= j <= |vin|
      invariant view.Tip() == old(view.Tip())
      invariant view.Beneath() == old(view.Beneath())
      invariant RestoreInputs(view.Visible(), vin, undo, j) == RestoreInputs(before, vin, undo, |vin|)
      invariant (clean && RestoreInputsClean(view.Visible(), vin, undo, j)) ==
        RestoreInputsClean(before, vin, undo, |vin|)
    {
      hide RestoreInput, RestoreInputClean;
      j := j - 1;
      var restored := RestoreIntoView(vin[j].prevout, undo[j], view);
      clean := clean && restored;
    }
  }

  /** The loop of DisconnectBlock over the transactions, last one first.  It goes on after a
      complaint and gives up only when the undo data does not fit. */
  method DisconnectTransactions(vtx: seq<Transaction>, undo: BlockUndo, nHeight: nat, view: CoinsViewCache)
    returns (fits: bool, clean: bool)
    requires view.Valid()
    modifies view.Repr
    ensures view.Tip() == old(view.Tip())
    ensures view.Beneath() == old(view.Beneath())
    ensures fits == UndoFits(vtx, undo)
    ensures fits ==> clean == DisconnectClean(old(view.Visible()), vtx, undo, |vtx|, nHeight)
    ensures fits ==> view.Visible() == Disconnect(old(view.Visible()), vtx, undo, |vtx|)
  {
    hide RestoreInputs, RestoreInputsClean, OutputsMatch;
    if |undo| + 1 != |vtx| {
      return false, false;
    }
    clean := true;
    ghost var before := view.Visible();
    var i := |vtx|;
    while i > 0
      invariant 0 <= i <= |vtx|
      invariant view.Tip() == old(view.Tip())
      invariant view.Beneath() == old(view.Beneath())
      invariant forall j | i <= j < |vtx| && j >= 1 :: |undo[j - 1]| == |vtx[j].vin|
      invariant UndoFits(vtx, undo) ==>
        && Disconnect(view.Visible(), vtx, undo, i) == Disconnect(before, vtx, undo, |vtx|)
        && (clean && DisconnectClean(view.Visible(), vtx, undo, i, nHeight)) ==
          DisconnectClean(before, vtx, undo, |vtx|, nHeight)
    {
      i := i - 1;
      var removed := RemoveOutputs(vtx[i], nHeight, view);
      clean := clean && removed;
      if i > 0 {
        if |undo[i - 1]| != |vtx[i].vin| {
          return false, false;
        }
        var restored := RestoreTransactionInputs(vtx[i].vin, undo[i - 1], view);
        clean := clean && restored;
      }
    }
    fits := true;
  }

  /** There is undo data for the block, and it has the block's shape. */
  predicate CanUndo(pindex: BlockIndex)
    reads pindex`undo
  {
    pindex.undo != None && UndoFits(pindex.block.vtx, pindex.undo.value)
  }

  /** Disconnect the best block of the view with its undo data.  A caller that wants to hear about
      complaints is told by `fClean`, and they do not count as failure then. */
  method DisconnectBlock(pindex: BlockIndex, view: CoinsViewCache, pfClean: bool) returns (ok: bool, fClean: bool)
    requires view.Valid() && pindex == view.Tip() && pindex.pprev != null
    modifies view.Repr
    ensures view.Beneath() == old(view.Beneath())
    ensures ok == (CanUndo(pindex) && (pfClean || fClean))
    ensures fClean == (CanUndo(pindex) && DisconnectClean(
      old(view.Visible()), pindex.block.vtx, pindex.undo.value, |pindex.block.vtx|, pindex.nHeight))
    ensures CanUndo(pindex) ==>
      && view.Visible() == Disconnect(old(view.Visible()), pindex.block.vtx, pindex.undo.value, |pindex.block.vtx|)
      && view.Tip() == view.pindexTip == pindex.pprev
  {
    hide UndoFits, Disconnect, DisconnectClean;
    var vtx := pindex.block.vtx;
    if pindex.undo == None {
      return false, false;
    }
    view.OwnsOnlyViews(pindex);
    var undo := pindex.undo.value;
    ok, fClean := DisconnectTransactions(vtx, undo, pindex.nHeight, view);
    if !ok {
      return false, false;
    }
    view.SetBestBlock(pindex.pprev);
    ok := pfClean || fClean;
  }
}
