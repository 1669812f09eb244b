/** When disconnecting a block raises no complaint at all. */
module CleanDisconnects {
  import opened Transactions
  import opened Coins
  import opened BlockIndexes
  import opened CoinsViews
  import opened CoinUpdates

  predicate AllNull(vout: seq<TxOut>) {
    forall i | 0 <= i < |vout| :: vout[i].IsNull()
  }

  /** Outputs that spending and restoring bring back unchanged: the last one holds something, and
      those that hold nothing have no script either. */
  predicate Canonical(vout: seq<TxOut>) {
    && vout != []
    && !vout[|vout| - 1].IsNull()
    && forall i | 0 <= i < |vout| && vout[i].IsNull() :: vout[i] == NULL_OUT
  }

  predicate CanonicalCoins(c: Coins) {
    c.IsPruned() || Canonical(c.vout)
  }

  // ---------------------------------------------------------------- one set of coins

  lemma CanonicalIsNormal(c: Coins)
    requires Canonical(c.vout)
    ensures Normal(c) == c
  {
    assert Blanked(c.vout) == c.vout;
  }

  lemma RestoredIsCanonical(d: Coins, n: nat, undo: InUndo)
    requires CanonicalCoins(d) && RestoreClean(d, n, undo) && !undo.txout.IsNull()
    ensures Canonical(Restored(d, n, undo).vout)
  {
  }

  lemma CanonicalCoinsOf(c: Coins)
    requires Canonical(c.vout)
    ensures CanonicalCoins(c)
  {
  }

  /** Spend whatever is unspent among the first `k` outputs, collecting the undo records. */
  function SpendFirst(c: Coins, k: nat): (Coins, seq<InUndo>)
    decreases k
  {
    if k == 0 then (c, [])
    else
      var (d, undo) := SpendFirst(c, k - 1);
      if d.IsAvailable(k - 1) then (d.Spent(k - 1), undo + [d.SpendUndo(k - 1)]) else (d, undo)
  }

  /** Undo that, given which of the first `k` outputs `c` had unspent. */
  function RestoreFirst(c: Coins, d: Coins, undo: seq<InUndo>, k: nat): Coins
    decreases k
  {
    if k == 0 then d
    else if c.IsAvailable(k - 1) && undo != [] then
      RestoreFirst(c, Restored(d, k - 1, undo[|undo| - 1]), undo[..|undo| - 1], k - 1)
    else RestoreFirst(c, d, undo, k - 1)
  }

  lemma {:induction false} SpendFirstSlots(c: Coins, k: nat)
    ensures forall n: nat :: SpendFirst(c, k).0.Slot(n) == if n < k then None else c.Slot(n)
    ensures SpendFirst(c, k).0.nHeight == c.nHeight
    decreases k
  {
    hide Trim, Coins.SpendUndo;
    if k > 0 {
      SpendFirstSlots(c, k - 1);
      var d := SpendFirst(c, k - 1).0;
      assert d.Slot(k - 1) == c.Slot(k - 1);
      if d.IsAvailable(k - 1) {
        SpentSlots(d, k - 1);
      }
    }
  }

  lemma {:induction false} RestoreFirstUndoes(c: Coins, d: Coins, k: nat)
    requires c.nHeight >= 1 && SameCoins(SpendFirst(c, k).0, d) && CanonicalCoins(d)
    ensures SameCoins(c, RestoreFirst(c, d, SpendFirst(c, k).1, k))
    ensures CanonicalCoins(RestoreFirst(c, d, SpendFirst(c, k).1, k))
    decreases k
  {
    hide Restored, SameCoins, RestoreClean, CanonicalCoins, Canonical;
    if k > 0 {
      var e, undo := SpendFirst(c, k - 1).0, SpendFirst(c, k).1;
      assert e.Slot(k - 1) == c.Slot(k - 1) && e.nHeight == c.nHeight by {
        SpendFirstSlots(c, k - 1);
      }
      if e.IsAvailable(k - 1) {
        RestoreUndoesSpend(e, d, k - 1);
        RestoredIsCanonical(d, k - 1, e.SpendUndo(k - 1));
        CanonicalCoinsOf(Restored(d, k - 1, e.SpendUndo(k - 1)));
        assert undo[..|undo| - 1] == SpendFirst(c, k - 1).1;
        RestoreFirstUndoes(c, Restored(d, k - 1, e.SpendUndo(k - 1)), k - 1);
      } else {
        RestoreFirstUndoes(c, d, k - 1);
      }
    }
  }

  lemma MatchesIffCanonical(c: Coins)
    requires !c.IsPruned()
    ensures CoinsEqual(Normal(c), c) <==> Canonical(c.vout)
  {
    var b := Blanked(c.vout);
    NormalSlots(c);
    if Canonical(c.vout) {
      CanonicalIsNormal(c);
      TxOutsEqualReflexive(c.vout);
    }
    if CoinsEqual(Normal(c), c) {
      var vout := Normal(c).vout;
      assert vout == b && !b[|b| - 1].IsNull();
      forall i | 0 <= i < |c.vout| && c.vout[i].IsNull()
        ensures c.vout[i] == NULL_OUT
      {
        assert TxOutEquals(vout[i], c.vout[i]);
      }
    }
  }

  /** Coins survive being completely spent and completely restored, as far as the equality test
      of DisconnectBlock can tell, exactly when their outputs are canonical. */
  lemma FullSpendRoundTrip(c: Coins)
    requires c.nHeight >= 1 && !c.IsPruned()
    ensures var (d, undo) := SpendFirst(c, |c.vout|);
      d.IsPruned() && (CoinsEqual(RestoreFirst(c, d, undo, |c.vout|), c) <==> Canonical(c.vout))
  {
    var (d, undo) := SpendFirst(c, |c.vout|);
    SpendFirstSlots(c, |c.vout|);
    PrunedSlots(d);
    RestoreFirstUndoes(c, d, |c.vout|);
    var r := RestoreFirst(c, d, undo, |c.vout|);
    NormalSlots(c);
    NormalSlots(r);
    CanonicalIsNormal(r);
    MatchesIffCanonical(c);
  }

  // ---------------------------------------------------------------- outputs that grow back

  /** What restoring outputs into these coins starts from. */
  function Base(c: Coins): seq<TxOut> {
    if c.IsPruned() then [] else c.vout
  }

  /** `c` grew from `base` by restoring outputs: what is still null stands as it stood in `base`, or
      is blank beyond it, and a new last output holds something. */
  predicate Regrown(base: seq<TxOut>, c: Coins) {
    if c.IsPruned() then base == []
    else
      && |base| <= |c.vout|
      && (|base| == |c.vout| || !c.vout[|c.vout| - 1].IsNull())
      && forall n | 0 <= n < |c.vout| && c.vout[n].IsNull() :: c.vout[n] == if n < |base| then base[n] else NULL_OUT
  }

  lemma RegrownStarts(c: Coins)
    ensures Regrown(Base(c), c)
  {
  }

  lemma RegrownStep(base: seq<TxOut>, c: Coins, n: nat, undo: InUndo)
    requires Regrown(base, c) && RestoreClean(c, n, undo) && !undo.txout.IsNull()
    ensures Regrown(base, Restored(c, n, undo)) && !Restored(c, n, undo).IsPruned()
  {
    assert Restored(c, n, undo).vout[n] == undo.txout;
  }

  lemma RegrownCanonical(base: seq<TxOut>, c: Coins)
    requires Regrown(base, c) && (base == [] || Canonical(base))
    ensures CanonicalCoins(c)
  {
  }

  /** Such coins can have grown to `vout`: not longer already, the last output an old one or one that
      holds something, and null outputs with the scripts that growing leaves. */
  predicate FitsBase(base: seq<TxOut>, vout: seq<TxOut>)
    requires vout != []
  {
    && |base| <= |vout|
    && (|base| == |vout| || !vout[|vout| - 1].IsNull())
    && forall n | 0 <= n < |vout| && vout[n].IsNull() ::
         vout[n].scriptPubKey == if n < |base| then base[n].scriptPubKey else []
  }

  lemma SameLength(c: Coins, d: Coins, base: seq<TxOut>)
    requires !c.IsPruned() && (forall n: nat :: c.Slot(n) == d.Slot(n)) && !d.IsPruned() && Regrown(base, d)
    ensures |d.vout| == |c.vout| <==>
      |base| <= |c.vout| && (|base| == |c.vout| || !c.vout[|c.vout| - 1].IsNull())
  {
    assert d.Slot(|d.vout| - 1) == c.Slot(|d.vout| - 1);
    assert c.Slot(|c.vout| - 1) == d.Slot(|c.vout| - 1);
  }

  lemma MatchIffFitsBase(c: Coins, d: Coins, base: seq<TxOut>)
    requires !c.IsPruned() && (forall n: nat :: c.Slot(n) == d.Slot(n)) && !d.IsPruned() && Regrown(base, d)
    ensures TxOutsEqual(d.vout, c.vout) <==> FitsBase(base, c.vout)
  {
    SameLength(c, d, base);
    if |d.vout| == |c.vout| {
      forall n | 0 <= n < |c.vout|
        ensures TxOutEquals(d.vout[n], c.vout[n]) <==>
          (c.vout[n].IsNull() ==> c.vout[n].scriptPubKey == if n < |base| then base[n].scriptPubKey else [])
      {
        assert c.Slot(n) == d.Slot(n);
        CashEqualsReflexive(c.vout[n].nValue);
      }
    }
  }

  // ---------------------------------------------------------------- one transaction

  /** Disconnecting will find the outputs of this transaction as they were created. */
  predicate Fits(w: View, tx: Transaction, nHeight: nat) {
    if AllNull(tx.vout) then OutputsMatch(w, tx, nHeight) else FitsBase(Base(Entry(w, tx.hash)), tx.vout)
  }

  /** The very same entry, or none in either view. */
  predicate SameEntry(a: View, b: View, txid: Hash) {
    (txid in a <==> txid in b) && Entry(a, txid) == Entry(b, txid)
  }

  lemma SameEntryMatches(a: View, b: View, tx: Transaction, nHeight: nat)
    requires SameEntry(a, b, tx.hash)
    ensures OutputsMatch(a, tx, nHeight) == OutputsMatch(b, tx, nHeight)
  {
    hide CoinsEqual;
  }

  /** The entry in `w` grew from that in `from`, and is untouched while it holds nothing. */
  predicate TracksAt(from: View, w: View, txid: Hash) {
    && Regrown(Base(Entry(from, txid)), Entry(w, txid))
    && (Entry(w, txid).IsPruned() ==> SameEntry(from, w, txid))
  }

  ghost predicate Tracks(from: View, w: View) {
    forall txid: Hash :: TracksAt(from, w, txid)
  }

  lemma TracksStart(w: View)
    ensures Tracks(w, w)
  {
    hide Regrown, Base;
    forall txid: Hash
      ensures TracksAt(w, w, txid)
    {
      RegrownStarts(Entry(w, txid));
    }
  }

  lemma ClearTracks(from: View, w: View, txid: Hash)
    requires Tracks(from, w)
    ensures Tracks(Put(from, txid, NO_COINS), Put(w, txid, NO_COINS))
  {
    hide Regrown, Base, Coins.IsPruned;
    forall id: Hash
      ensures TracksAt(Put(from, txid, NO_COINS), Put(w, txid, NO_COINS), id)
    {
      RegrownStarts(NO_COINS);
      assert TracksAt(from, w, id);
    }
  }

  lemma RestoreInputTracks(from: View, w: View, out: OutPoint, undo: InUndo)
    requires Tracks(from, w) && RestoreInputClean(w, out, undo) && !undo.txout.IsNull()
    ensures Tracks(from, RestoreInput(w, out, undo))
  {
    hide Regrown, Base, Coins.IsPruned, RestoreClean, Restored;
    forall id: Hash
      ensures TracksAt(from, RestoreInput(w, out, undo), id)
    {
      assert TracksAt(from, w, id);
      if id == out.hash {
        RegrownStep(Base(Entry(from, id)), Entry(w, id), out.n, undo);
      }
    }
  }

  predicate UndoHoldsOutputs(undo: TxUndo) {
    forall i | 0 <= i < |undo| :: !undo[i].txout.IsNull()
  }

  lemma {:induction false} SpendInputsUndo(view: View, vin: seq<TxIn>, k: nat)
    requires k <= |vin| && SpendInputs(view, vin, k) != None
    ensures UndoHoldsOutputs(SpendInputs(view, vin, k).value.undo)
    decreases k
  {
    hide SpendInput;
    if k > 0 {
      SpendInputsUndo(view, vin, k - 1);
      SpendInputRecords(SpendInputs(view, vin, k - 1).value, vin[k - 1].prevout);
    }
  }

  lemma SpendInputRecords(s: Spending, out: OutPoint)
    requires SpendInput(s, out) != None && UndoHoldsOutputs(s.undo)
    ensures UndoHoldsOutputs(SpendInput(s, out).value.undo)
  {
    hide Entry, Put, Coins.Spent;
  }

  lemma {:induction false} RestoreInputsTracks(from: View, w: View, vin: seq<TxIn>, undo: TxUndo, k: nat)
    requires k <= |vin| == |undo| && Tracks(from, w) && UndoHoldsOutputs(undo)
    requires RestoreInputsClean(w, vin, undo, k)
    ensures Tracks(from, RestoreInputs(w, vin, undo, k))
    decreases k
  {
    hide Tracks, RestoreInput, RestoreInputClean;
    if k > 0 {
      RestoreInputTracks(from, w, vin[k - 1].prevout, undo[k - 1]);
      RestoreInputsTracks(from, RestoreInput(w, vin[k - 1].prevout, undo[k - 1]), vin, undo, k - 1);
    }
  }

  /** A transaction finds its outputs as created exactly when the coins from which its entry grew
      allow it. */
  lemma MatchIffFits(from: View, w: View, tx: Transaction, nHeight: nat)
    requires TracksAt(from, w, tx.hash) && SameCoins(TxCoins(tx, nHeight), Entry(w, tx.hash))
    ensures OutputsMatch(w, tx, nHeight) <==> Fits(from, tx, nHeight)
  {
    hide Regrown, Base, SameCoins, FitsBase, TxOutsEqual;
    var c, d := TxCoins(tx, nHeight), Entry(w, tx.hash);
    SameCoinsMeaning(c, d);
    PrunedSlots(c);
    PrunedSlots(d);
    if AllNull(tx.vout) {
      SameEntryMatches(from, w, tx, nHeight);
    } else {
      MatchIffFitsBase(c, d, Base(Entry(from, tx.hash)));
    }
  }

  // ---------------------------------------------------------------- the block

  /** What connecting asks of every transaction of a block. */
  ghost predicate Undoable(view: View, vtx: seq<Transaction>, undo: BlockUndo, nHeight: nat) {
    && OneCoinBase(vtx) && DistinctHashes(vtx) && NoOverwrite(view, vtx) && UndoFits(vtx, undo)
    && HeightsPositive(view) && nHeight >= 1
  }

  lemma UndoableMeans(view: View, vtx: seq<Transaction>, undo: BlockUndo, nHeight: nat)
    requires Undoable(view, vtx, undo, nHeight)
    ensures OneCoinBase(vtx) && DistinctHashes(vtx) && NoOverwrite(view, vtx) && UndoFits(vtx, undo)
    ensures HeightsPositive(view) && nHeight >= 1
  {
  }

  lemma LastEntry(view: View, w: View, vtx: seq<Transaction>, k: nat, nHeight: nat)
    requires 0 < k <= |vtx| && ConnectTxs(view, vtx, k, nHeight) != None
    requires SameView(ConnectTxs(view, vtx, k, nHeight).value.view, w)
    ensures SameCoins(TxCoins(vtx[k - 1], nHeight), Entry(w, vtx[k - 1].hash))
  {
    hide SameCoins, SpendAll;
    assert SameCoins(Entry(ConnectTxs(view, vtx, k, nHeight).value.view, vtx[k - 1].hash), Entry(w, vtx[k - 1].hash));
  }

  lemma UndoFitsAt(vtx: seq<Transaction>, undo: BlockUndo, i: nat)
    requires UndoFits(vtx, undo) && 1 <= i < |vtx|
    ensures |undo[i - 1]| == |vtx[i].vin|
  {
  }

  lemma DisconnectTxTracks(view: View, from: View, w: View, vtx: seq<Transaction>, undo: BlockUndo, k: nat,
                           nHeight: nat)
    requires Undoable(view, vtx, undo, nHeight) && 0 < k && Records(view, vtx, undo, k, nHeight)
    requires SameView(ConnectTxs(view, vtx, k, nHeight).value.view, w) && Tracks(from, w)
    ensures Tracks(Put(from, vtx[k - 1].hash, NO_COINS), DisconnectTx(w, vtx, undo, k - 1))
  {
    hide Restored, RestoreInputs, RestoreInputsClean, SpendInputs, NoOverwrite, HeightsPositive, DistinctHashes;
    hide SameView, Tracks, UndoFits, Put;
    var tx := vtx[k - 1];
    ClearTracks(from, w, tx.hash);
    if k > 1 {
      UndoFitsAt(vtx, undo, k - 1);
      var v := ConnectTxs(view, vtx, k - 1, nHeight).value.view;
      RecordsShrink(view, vtx, undo, k, nHeight);
      ClearingUndoesCreation(view, w, vtx, k, nHeight);
      ConnectTxsHeights(view, vtx, k - 1, nHeight);
      assert undo[k - 2][..|tx.vin|] == undo[k - 2];
      SpendInputsUndo(v, tx.vin, |tx.vin|);
      RestoreUndoesSpends(v, Put(w, tx.hash, NO_COINS), tx.vin, undo[k - 2], |tx.vin|);
      RestoreInputsTracks(Put(from, tx.hash, NO_COINS), Put(w, tx.hash, NO_COINS), tx.vin, undo[k - 2], |tx.vin|);
    }
  }

  predicate AllFit(w: View, vtx: seq<Transaction>, k: nat, nHeight: nat)
    requires k <= |vtx|
  {
    forall i | 0 <= i < k :: Fits(w, vtx[i], nHeight)
  }

  lemma FitsElsewhere(w: View, tx: Transaction, nHeight: nat, txid: Hash)
    requires tx.hash != txid
    ensures Fits(Put(w, txid, NO_COINS), tx, nHeight) == Fits(w, tx, nHeight)
  {
    hide FitsBase, Base, AllNull;
    SameEntryMatches(Put(w, txid, NO_COINS), w, tx, nHeight);
  }

  lemma AllFitBefore(w: View, vtx: seq<Transaction>, k: nat, nHeight: nat)
    requires DistinctHashes(vtx) && 0 < k <= |vtx|
    ensures AllFit(Put(w, vtx[k - 1].hash, NO_COINS), vtx, k - 1, nHeight) == AllFit(w, vtx, k - 1, nHeight)
  {
    hide Fits, Put;
    forall i | 0 <= i < k - 1
      ensures Fits(Put(w, vtx[k - 1].hash, NO_COINS), vtx[i], nHeight) == Fits(w, vtx[i], nHeight)
    {
      FitsElsewhere(w, vtx[i], nHeight, vtx[k - 1].hash);
    }
  }

  /** The first `k` transactions' own entries removed, the last one first. */
  function ClearFirst(w: View, vtx: seq<Transaction>, k: nat): View
    requires k <= |vtx|
    decreases k
  {
    if k == 0 then w else ClearFirst(Put(w, vtx[k - 1].hash, NO_COINS), vtx, k - 1)
  }

  lemma {:induction false} DisconnectTxsTracked(view: View, from: View, w: View, vtx: seq<Transaction>, undo: BlockUndo,
                                                k: nat, nHeight: nat)
    requires Undoable(view, vtx, undo, nHeight) && Records(view, vtx, undo, k, nHeight)
    requires SameView(ConnectTxs(view, vtx, k, nHeight).value.view, w) && Tracks(from, w)
    ensures AllOutputsMatch(w, vtx, undo, k, nHeight) <==> AllFit(from, vtx, k, nHeight)
    ensures Tracks(ClearFirst(from, vtx, k), Disconnect(w, vtx, undo, k))
    decreases k
  {
    hide NoOverwrite, HeightsPositive, OneCoinBase, DistinctHashes, DisconnectTx, OutputsMatch, SameView, ConnectTx;
    hide UndoFits, Undoable, TracksAt, Fits, Put;
    UndoableMeans(view, vtx, undo, nHeight);
    if k > 0 {
      var tx := vtx[k - 1];
      LastEntry(view, w, vtx, k, nHeight);
      assert TracksAt(from, w, tx.hash);
      hide Tracks;
      MatchIffFits(from, w, tx, nHeight);
      AllFitBefore(from, vtx, k, nHeight);
      DisconnectTxTracks(view, from, w, vtx, undo, k, nHeight);
      DisconnectUndoesTx(view, w, vtx, undo, k, nHeight);
      DisconnectTxsTracked(view, Put(from, tx.hash, NO_COINS), DisconnectTx(w, vtx, undo, k - 1), vtx, undo, k - 1,
                           nHeight);
    }
  }

  function FirstTxids(vtx: seq<Transaction>, k: nat): set<Hash>
    requires k <= |vtx|
  {
    set i | 0 <= i < k :: vtx[i].hash
  }

  /** The coins with the entries of these transactions emptied. */
  function Emptied(w: View, ids: set<Hash>): View {
    w + map id | id in ids :: NO_COINS
  }

  /** The coins with the entries of the block's own transactions emptied. */
  function Cleared(w: View, block: Block): View {
    Emptied(w, FirstTxids(block.vtx, |block.vtx|))
  }

  lemma EmptyNone(w: View)
    ensures Emptied(w, {}) == w
  {
  }

  lemma NoTxids(vtx: seq<Transaction>)
    ensures FirstTxids(vtx, 0) == {}
  {
  }

  lemma FirstTxidsGrow(vtx: seq<Transaction>, k: nat)
    requires 0 < k <= |vtx|
    ensures FirstTxids(vtx, k) == FirstTxids(vtx, k - 1) + {vtx[k - 1].hash}
  {
  }

  lemma EmptyOneMore(w: View, ids: set<Hash>, txid: Hash)
    ensures Emptied(Put(w, txid, NO_COINS), ids) == Emptied(w, ids + {txid})
  {
  }

  lemma {:induction false} ClearFirstIs(w: View, vtx: seq<Transaction>, k: nat)
    requires k <= |vtx|
    ensures ClearFirst(w, vtx, k) == Emptied(w, FirstTxids(vtx, k))
    decreases k
  {
    hide Emptied, FirstTxids, Put;
    if k == 0 {
      EmptyNone(w);
      NoTxids(vtx);
    } else {
      ClearFirstIs(Put(w, vtx[k - 1].hash, NO_COINS), vtx, k - 1);
      EmptyOneMore(w, FirstTxids(vtx, k - 1), vtx[k - 1].hash);
      FirstTxidsGrow(vtx, k);
    }
  }

  /** Every transaction of the block fits the coins. */
  predicate BlockFits(w: View, block: Block, nHeight: nat) {
    AllFit(w, block.vtx, |block.vtx|, nHeight)
  }

  /** Disconnecting a connected block raises no complaint exactly when its transactions fit the coins
      from which the present ones grew; and afterwards the coins have grown from those without the
      block's own entries. */
  lemma DisconnectTracked(view: View, from: View, w: View, block: Block, nHeight: nat)
    requires HeightsPositive(view) && nHeight >= 1 && Tracks(from, w)
    requires Connect(view, block, nHeight) != None && SameView(Connect(view, block, nHeight).value.view, w)
    ensures UndoFits(block.vtx, Connect(view, block, nHeight).value.undo)
    ensures DisconnectClean(w, block.vtx, Connect(view, block, nHeight).value.undo, |block.vtx|, nHeight) <==>
      BlockFits(from, block, nHeight)
    ensures Tracks(Cleared(from, block),
                   Disconnect(w, block.vtx, Connect(view, block, nHeight).value.undo, |block.vtx|))
  {
    hide HeightsPositive, SameView, ConnectTxs, Disconnect, DisconnectClean, AllOutputsMatch, Tracks, AllFit;
    hide ClearFirst;
    hide Emptied;
    var undo := Connect(view, block, nHeight).value.undo;
    DisconnectUndoesConnect(view, w, block, nHeight);
    assert undo[..|block.vtx| - 1] == undo;
    DisconnectTxsTracked(view, from, w, block.vtx, undo, |block.vtx|, nHeight);
    ClearFirstIs(from, block.vtx, |block.vtx|);
  }

  /** Disconnecting a connected block raises no complaint exactly when each of its transactions fits
      the coins at hand. */
  lemma DisconnectIsClean(view: View, w: View, block: Block, nHeight: nat)
    requires HeightsPositive(view) && nHeight >= 1
    requires Connect(view, block, nHeight) != None && SameView(Connect(view, block, nHeight).value.view, w)
    ensures UndoFits(block.vtx, Connect(view, block, nHeight).value.undo)
    ensures DisconnectClean(w, block.vtx, Connect(view, block, nHeight).value.undo, |block.vtx|, nHeight) <==>
      forall i | 0 <= i < |block.vtx| :: Fits(w, block.vtx[i], nHeight)
  {
    hide Fits, HeightsPositive, SameView, Connect, Disconnect, DisconnectClean, Tracks, UndoFits;
    TracksStart(w);
    DisconnectTracked(view, w, w, block, nHeight);
  }

  // ---------------------------------------------------------------- canonical entries

  /** What disconnecting recognises among canonical entries: outputs that spending and restoring
      bring back unchanged, or none at all while the entry is absent or as created. */
  predicate Recognised(w: View, tx: Transaction, nHeight: nat) {
    Canonical(tx.vout) || (AllNull(tx.vout) && OutputsMatch(w, tx, nHeight))
  }

  /** While a block is connected, a transaction of it has no unspent outputs but its own. */
  lemma {:induction false} CreatedSlots(view: View, vtx: seq<Transaction>, k: nat, nHeight: nat, i: nat, n: nat)
    requires DistinctHashes(vtx) && i < k <= |vtx| && ConnectTxs(view, vtx, k, nHeight) != None
    ensures var slot := Entry(ConnectTxs(view, vtx, k, nHeight).value.view, vtx[i].hash).Slot(n);
      slot == None || slot == TxCoins(vtx[i], nHeight).Slot(n)
    decreases k
  {
    hide Coins.Slot, SpendInputs, InputsAvailable, TxCoins;
    if i < k - 1 {
      CreatedSlots(view, vtx, k - 1, nHeight, i, n);
      var v, tx := ConnectTxs(view, vtx, k - 1, nHeight).value.view, vtx[k - 1];
      assert vtx[i].hash != tx.hash;
      if !tx.IsCoinBase() {
        SpendInputsSlots(v, tx.vin, |tx.vin|, OutPoint(vtx[i].hash, n));
      }
    }
  }

  lemma CanonicalFits(d: Coins, vout: seq<TxOut>)
    requires CanonicalCoins(d) && vout != []
    requires forall n: nat :: d.Slot(n) == None || d.Slot(n) == Coins(false, vout, 0, 0).Slot(n)
    ensures FitsBase(Base(d), vout) <==> Canonical(vout)
  {
    var base := Base(d);
    if base != [] {
      assert d.Slot(|base| - 1) != None;
    }
    forall n | 0 <= n < |vout| && vout[n].IsNull() && n < |base|
      ensures base[n] == NULL_OUT
    {
      assert d.Slot(n) == None;
    }
  }

  /** Among canonical entries, to fit is to be recognised. */
  lemma FitsIffRecognised(view: View, w: View, block: Block, nHeight: nat, i: nat)
    requires Connect(view, block, nHeight) != None && SameView(Connect(view, block, nHeight).value.view, w)
    requires i < |block.vtx| && CanonicalCoins(Entry(w, block.vtx[i].hash))
    ensures Fits(w, block.vtx[i], nHeight) <==> Recognised(w, block.vtx[i], nHeight)
  {
    hide Canonical, FitsBase, OutputsMatch, ConnectTxs, SameCoins, NoOverwrite, Base;
    var v, tx := Connect(view, block, nHeight).value.view, block.vtx[i];
    var d := Entry(w, tx.hash);
    if AllNull(tx.vout) {
      NullIsNotCanonical(tx.vout);
    } else {
      assert SameCoins(Entry(v, tx.hash), d);
      SameCoinsMeaning(Entry(v, tx.hash), d);
      forall n: nat
        ensures d.Slot(n) == None || d.Slot(n) == Coins(false, tx.vout, 0, 0).Slot(n)
      {
        CreatedSlots(view, block.vtx, |block.vtx|, nHeight, i, n);
      }
      CanonicalFits(d, tx.vout);
    }
  }

  lemma NullIsNotCanonical(vout: seq<TxOut>)
    requires AllNull(vout)
    ensures !Canonical(vout)
  {
  }

  /** With canonical entries for its own transactions, a block is disconnected without complaint
      exactly when all of them are recognised. */
  lemma DisconnectRecognises(view: View, w: View, block: Block, nHeight: nat)
    requires HeightsPositive(view) && nHeight >= 1
    requires Connect(view, block, nHeight) != None && SameView(Connect(view, block, nHeight).value.view, w)
    requires forall i | 0 <= i < |block.vtx| :: CanonicalCoins(Entry(w, block.vtx[i].hash))
    ensures UndoFits(block.vtx, Connect(view, block, nHeight).value.undo)
    ensures DisconnectClean(w, block.vtx, Connect(view, block, nHeight).value.undo, |block.vtx|, nHeight) <==>
      forall i | 0 <= i < |block.vtx| :: Recognised(w, block.vtx[i], nHeight)
  {
    hide CanonicalCoins, Fits, Recognised, HeightsPositive, SameView, Connect, DisconnectClean, UndoFits;
    DisconnectIsClean(view, w, block, nHeight);
    forall i | 0 <= i < |block.vtx|
      ensures Fits(w, block.vtx[i], nHeight) <==> Recognised(w, block.vtx[i], nHeight)
    {
      FitsIffRecognised(view, w, block, nHeight, i);
    }
  }

  lemma SpentIsCanonical(c: Coins, n: nat)
    requires CanonicalCoins(c) && c.IsAvailable(n)
    ensures CanonicalCoins(c.Spent(n))
  {
    var left := c.Spent(n).vout;
    forall i | 0 <= i < |left| && left[i].IsNull()
      ensures left[i] == NULL_OUT
    {
      assert left[i] == c.vout[n := NULL_OUT][i];
    }
  }

  lemma {:induction false} SpendInputsCanonical(view: View, vin: seq<TxIn>, k: nat, txid: Hash)
    requires k <= |vin| && SpendInputs(view, vin, k) != None && CanonicalCoins(Entry(view, txid))
    ensures CanonicalCoins(Entry(SpendInputs(view, vin, k).value.view, txid))
    decreases k
  {
    hide CanonicalCoins, Coins.Spent, Coins.SpendUndo;
    if k > 0 {
      SpendInputsCanonical(view, vin, k - 1, txid);
      var v, out := SpendInputs(view, vin, k - 1).value.view, vin[k - 1].prevout;
      if out.hash == txid {
        SpentIsCanonical(Entry(v, txid), out.n);
      }
    }
  }

  lemma ConnectTxCanonical(c: Connected, tx: Transaction, nHeight: nat, txid: Hash)
    requires ConnectTx(c, tx, nHeight) != None && CanonicalCoins(Entry(c.view, txid))
    requires tx.hash == txid ==> Canonical(tx.vout)
    ensures CanonicalCoins(Entry(ConnectTx(c, tx, nHeight).value.view, txid))
  {
    hide CanonicalCoins, Canonical, SpendInputs;
    if !tx.IsCoinBase() {
      SpendInputsCanonical(c.view, tx.vin, |tx.vin|, txid);
    }
    if tx.hash == txid {
      CanonicalCoinsOf(TxCoins(tx, nHeight));
    }
  }

  /** A canonical entry stays canonical while a block is connected that does not replace it by others
      than canonical outputs. */
  lemma {:induction false} ConnectTxsCanonical(view: View, vtx: seq<Transaction>, k: nat, nHeight: nat, txid: Hash)
    requires k <= |vtx| && ConnectTxs(view, vtx, k, nHeight) != None && CanonicalCoins(Entry(view, txid))
    requires forall i | 0 <= i < k && vtx[i].hash == txid :: Canonical(vtx[i].vout)
    ensures CanonicalCoins(Entry(ConnectTxs(view, vtx, k, nHeight).value.view, txid))
    decreases k
  {
    hide CanonicalCoins, Canonical, ConnectTx;
    if k > 0 {
      ConnectTxsCanonical(view, vtx, k - 1, nHeight, txid);
      ConnectTxCanonical(ConnectTxs(view, vtx, k - 1, nHeight).value, vtx[k - 1], nHeight, txid);
    }
  }

  /** The entry that a canonical transaction gets is canonical when its block has been connected. */
  lemma ConnectCanonical(view: View, block: Block, nHeight: nat, i: nat)
    requires Connect(view, block, nHeight) != None && i < |block.vtx| && Canonical(block.vtx[i].vout)
    ensures CanonicalCoins(Entry(Connect(view, block, nHeight).value.view, block.vtx[i].hash))
  {
    hide ConnectTxs, Canonical, CheckTransaction;
    ConnectTxsCanonical(view, block.vtx, |block.vtx|, nHeight, block.vtx[i].hash);
  }

  // ---------------------------------------------------------------- right after connecting

  /** Spending leaves the entries of other transactions alone. */
  lemma {:induction false} SpendInputsElsewhere(view: View, vin: seq<TxIn>, k: nat, txid: Hash)
    requires k <= |vin| && SpendInputs(view, vin, k) != None
    requires Entry(view, txid).IsPruned() || forall j | 0 <= j < k :: vin[j].prevout.hash != txid
    ensures SameEntry(view, SpendInputs(view, vin, k).value.view, txid)
    decreases k
  {
    hide Coins.Spent, Coins.SpendUndo;
    if k > 0 {
      SpendInputsElsewhere(view, vin, k - 1, txid);
      assert Entry(view, txid).IsPruned() ==>
        !Entry(SpendInputs(view, vin, k - 1).value.view, txid).IsAvailable(vin[k - 1].prevout.n);
    }
  }

  predicate SpendsFrom(tx: Transaction, txid: Hash) {
    exists j | 0 <= j < |tx.vin| :: tx.vin[j].prevout.hash == txid
  }

  /** Connecting other transactions leaves an entry alone that they do not or cannot spend from. */
  lemma ConnectTxElsewhere(c: Connected, tx: Transaction, nHeight: nat, txid: Hash)
    requires ConnectTx(c, tx, nHeight) != None && tx.hash != txid
    requires Entry(c.view, txid).IsPruned() || !SpendsFrom(tx, txid)
    ensures SameEntry(c.view, ConnectTx(c, tx, nHeight).value.view, txid)
  {
    hide Coins.IsPruned, SpendInputs;
    if !tx.IsCoinBase() {
      SpendInputsElsewhere(c.view, tx.vin, |tx.vin|, txid);
    }
  }

  predicate HashesAvoid(vtx: seq<Transaction>, txid: Hash) {
    forall i | 0 <= i < |vtx| :: vtx[i].hash != txid
  }

  lemma {:induction false} ConnectTxsElsewhere(view: View, vtx: seq<Transaction>, k: nat, nHeight: nat, txid: Hash)
    requires k <= |vtx| && ConnectTxs(view, vtx, k, nHeight) != None
    requires Entry(view, txid).IsPruned() && HashesAvoid(vtx, txid)
    ensures SameEntry(view, ConnectTxs(view, vtx, k, nHeight).value.view, txid)
    decreases k
  {
    hide ConnectTx, Coins.IsPruned, SpendsFrom;
    if k > 0 {
      ConnectTxsElsewhere(view, vtx, k - 1, nHeight, txid);
      ConnectTxElsewhere(ConnectTxs(view, vtx, k - 1, nHeight).value, vtx[k - 1], nHeight, txid);
    }
  }

  /** Nothing of this transaction is spent in its own block. */
  predicate Untouched(vtx: seq<Transaction>, k: nat, i: nat)
    requires i < k <= |vtx|
  {
    forall j | i < j < k :: !SpendsFrom(vtx[j], vtx[i].hash)
  }

  /** A transaction that created nothing, or of which nothing is spent in the block, keeps its entry
      while the block is connected. */
  lemma {:induction false} CreatedEntryStays(view: View, vtx: seq<Transaction>, k: nat, nHeight: nat, i: nat)
    requires DistinctHashes(vtx) && i < k <= |vtx| && (AllNull(vtx[i].vout) || Untouched(vtx, k, i))
    requires ConnectTxs(view, vtx, k, nHeight) != None
    ensures vtx[i].hash in ConnectTxs(view, vtx, k, nHeight).value.view
    ensures ConnectTxs(view, vtx, k, nHeight).value.view[vtx[i].hash] == TxCoins(vtx[i], nHeight)
    decreases k
  {
    hide SpendAll, SpendsFrom;
    assert AllNull(vtx[i].vout) ==> TxCoins(vtx[i], nHeight).IsPruned();
    if i < k - 1 {
      CreatedEntryStays(view, vtx, k - 1, nHeight, i);
      assert vtx[i].hash != vtx[k - 1].hash;
      hide ConnectTx;
      ConnectTxElsewhere(ConnectTxs(view, vtx, k - 1, nHeight).value, vtx[k - 1], nHeight, vtx[i].hash);
    }
  }

  /** As created, a transaction fits. */
  lemma CreatedFits(w: View, tx: Transaction, nHeight: nat)
    requires tx.hash in w && w[tx.hash] == TxCoins(tx, nHeight)
    ensures Fits(w, tx, nHeight)
  {
    TxOutsEqualReflexive(tx.vout);
  }

  /** What was just connected is disconnected without complaint, unless a hole was spent at in the
      block itself. */
  lemma DisconnectConnectedIsClean(view: View, block: Block, nHeight: nat)
    requires HeightsPositive(view) && nHeight >= 1 && Connect(view, block, nHeight) != None
    requires forall i | 0 <= i < |block.vtx| ::
      Canonical(block.vtx[i].vout) || AllNull(block.vtx[i].vout) || Untouched(block.vtx, |block.vtx|, i)
    ensures UndoFits(block.vtx, Connect(view, block, nHeight).value.undo)
    ensures var c := Connect(view, block, nHeight).value;
      DisconnectClean(c.view, block.vtx, c.undo, |block.vtx|, nHeight)
  {
    hide Canonical, AllNull, Untouched, ConnectTxs, DisconnectClean, UndoFits, HeightsPositive, NoOverwrite, Fits;
    hide SameView, CheckTransaction, CanonicalCoins;
    var w := Connect(view, block, nHeight).value.view;
    SameViewReflexive(w);
    DisconnectIsClean(view, w, block, nHeight);
    forall i | 0 <= i < |block.vtx|
      ensures Fits(w, block.vtx[i], nHeight)
    {
      if AllNull(block.vtx[i].vout) || Untouched(block.vtx, |block.vtx|, i) {
        CreatedEntryStays(view, block.vtx, |block.vtx|, nHeight, i);
        CreatedFits(w, block.vtx[i], nHeight);
      } else {
        ConnectCanonical(view, block, nHeight, i);
        FitsIffRecognised(view, w, block, nHeight, i);
      }
    }
  }

  lemma SameViewReflexive(view: View)
    ensures SameView(view, view)
  {
  }

  // ---------------------------------------------------------------- a block that fails

  /** Two blocks are connected and taken back again.  All unspent outputs are back, and yet
      disconnecting the first one raises a complaint. */
  ghost predicate ComplainsAboutFirst(view: View, first: Block, second: Block, nHeight: nat)
    requires Connect(view, first, nHeight) != None
    requires Connect(Connect(view, first, nHeight).value.view, second, nHeight + 1) != None
  {
    var c := Connect(view, first, nHeight).value;
    var d := Connect(c.view, second, nHeight + 1).value;
    && UndoFits(second.vtx, d.undo) && UndoFits(first.vtx, c.undo)
    && var w := Disconnect(d.view, second.vtx, d.undo, |second.vtx|);
    && SameView(c.view, w) && SameView(view, Disconnect(w, first.vtx, c.undo, |first.vtx|))
    && !DisconnectClean(w, first.vtx, c.undo, |first.vtx|, nHeight)
  }

  /** A transaction that leaves some outputs and a hole among them cannot be taken back cleanly once
      nothing is left of it after a later block: what disconnecting that block restores is canonical,
      and the transaction's outputs are not. */
  lemma SpentHoleFails(view: View, first: Block, second: Block, nHeight: nat, i: nat)
    requires HeightsPositive(view) && nHeight >= 1
    requires Connect(view, first, nHeight) != None
    requires Connect(Connect(view, first, nHeight).value.view, second, nHeight + 1) != None
    requires i < |first.vtx| && !Canonical(first.vtx[i].vout) && !AllNull(first.vtx[i].vout)
    requires Entry(Connect(Connect(view, first, nHeight).value.view, second, nHeight + 1).value.view,
                   first.vtx[i].hash).IsPruned()
    ensures ComplainsAboutFirst(view, first, second, nHeight)
  {
    hide Canonical, AllNull, HeightsPositive, SameView, ConnectTxs, DisconnectClean, OutputsMatch, Tracks, Cleared;
    hide Coins.IsPruned, CanonicalCoins, FitsBase;
    var c := Connect(view, first, nHeight).value;
    var d := Connect(c.view, second, nHeight + 1).value;
    ConnectTxsHeights(view, first.vtx, |first.vtx|, nHeight);
    SameViewReflexive(d.view);
    TracksStart(d.view);
    DisconnectUndoesConnect(c.view, d.view, second, nHeight + 1);
    var w := Disconnect(d.view, second.vtx, d.undo, |second.vtx|);
    DisconnectTracked(c.view, d.view, d.view, second, nHeight + 1);
    DisconnectUndoesConnect(view, w, first, nHeight);
    DisconnectIsClean(view, w, first, nHeight);
    FromNothing(d.view, w, second, first.vtx[i].hash);
    FitsIffRecognised(view, w, first, nHeight, i);
  }

  /** What grew from completely spent coins is canonical. */
  lemma FromNothing(from: View, w: View, block: Block, txid: Hash)
    requires Entry(from, txid).IsPruned() && Tracks(Cleared(from, block), w)
    ensures CanonicalCoins(Entry(w, txid))
  {
    hide Regrown, CanonicalCoins;
    assert TracksAt(Cleared(from, block), w, txid);
    RegrownCanonical([], Entry(w, txid));
  }

  const COINBASE_INPUT := OutPoint(0, NULL_INDEX)

  const PAID := TxOut(map["USD" := 1], [])

  lemma PaidIsThere()
    ensures !PAID.IsNull()
  {
    assert "USD" in PAID.nValue;
  }

  function Pay(txid: Hash, from: OutPoint, vout: seq<TxOut>): Transaction {
    Transaction(txid, 1, [TxIn(from, [0, 0], 0)], vout, 0, [])
  }

  /** The coins before, a block whose second transaction has a null output at the end, and a block
      that spends its other output. */
  const FUNDED: View := map[1 := Coins(false, [PAID], 1, 1)]
  const HOLE := Block(10, [Pay(2, COINBASE_INPUT, [PAID]), Pay(3, OutPoint(1, 0), [PAID, NULL_OUT])])
  const SPENDER := Block(11, [Pay(4, COINBASE_INPUT, [PAID]), Pay(5, OutPoint(3, 0), [PAID])])

  /** The coins after both blocks: two transactions are completely spent. */
  const AFTER_HOLE: View :=
    FUNDED[2 := Coins(true, [PAID], 2, 1)][1 := Coins(false, [], 1, 1)][3 := Coins(false, [PAID, NULL_OUT], 2, 1)]
  const AFTER_SPENDER: View :=
    AFTER_HOLE[4 := Coins(true, [PAID], 3, 1)][3 := Coins(false, [], 2, 1)][5 := Coins(false, [PAID], 3, 1)]

  lemma PayConnects(c: Connected, tx: Transaction, nHeight: nat, left: Coins)
    requires |tx.vin| == 1 && !tx.IsCoinBase()
    requires Entry(c.view, tx.vin[0].prevout.hash).IsAvailable(tx.vin[0].prevout.n)
    requires left == Entry(c.view, tx.vin[0].prevout.hash).Spent(tx.vin[0].prevout.n)
    ensures ConnectTx(c, tx, nHeight) != None
    ensures ConnectTx(c, tx, nHeight).value.view ==
      c.view[tx.vin[0].prevout.hash := left][tx.hash := TxCoins(tx, nHeight)]
  {
    hide Coins.Spent, Coins.SpendUndo;
    assert SpendInputs(c.view, tx.vin, 0) == Some(Spending(c.view, []));
    assert SpendInputs(c.view, tx.vin, 1) == SpendInput(Spending(c.view, []), tx.vin[0].prevout);
  }

  lemma TwoConnect(view: View, block: Block, nHeight: nat, left: Coins)
    requires CheckBlock(block) && NoOverwrite(view, block.vtx) && |block.vtx| == 2 && |block.vtx[1].vin| == 1
    requires block.vtx[1].vin[0].prevout.hash != block.vtx[0].hash
    requires Entry(view, block.vtx[1].vin[0].prevout.hash).IsAvailable(block.vtx[1].vin[0].prevout.n)
    requires left == Entry(view, block.vtx[1].vin[0].prevout.hash).Spent(block.vtx[1].vin[0].prevout.n)
    ensures Connect(view, block, nHeight) != None
    ensures Connect(view, block, nHeight).value.view ==
      view[block.vtx[0].hash := TxCoins(block.vtx[0], nHeight)][block.vtx[1].vin[0].prevout.hash := left]
        [block.vtx[1].hash := TxCoins(block.vtx[1], nHeight)]
  {
    hide NoOverwrite, Coins.IsAvailable, Coins.Spent, Coins.SpendUndo, TxCoins, SpendInputs, CheckTransaction;
    var v := view[block.vtx[0].hash := TxCoins(block.vtx[0], nHeight)];
    assert ConnectTxs(view, block.vtx, 0, nHeight) == Some(Connected(view, []));
    assert ConnectTxs(view, block.vtx, 1, nHeight) == Some(Connected(v, []));
    PayConnects(Connected(v, []), block.vtx[1], nHeight, left);
  }

  /** The program accepts and connects both blocks of the example.  The first one could be taken back
      cleanly straight away; taking both back, its outputs are found shorter than they were. */
  lemma SpentHoleExample()
    ensures Connect(FUNDED, HOLE, 2) != None
    ensures Connect(Connect(FUNDED, HOLE, 2).value.view, SPENDER, 3) != None
    ensures UndoFits(HOLE.vtx, Connect(FUNDED, HOLE, 2).value.undo)
    ensures DisconnectClean(Connect(FUNDED, HOLE, 2).value.view, HOLE.vtx, Connect(FUNDED, HOLE, 2).value.undo, 2, 2)
    ensures ComplainsAboutFirst(FUNDED, HOLE, SPENDER, 2)
  {
    HoleConnects();
    DisconnectConnectedIsClean(FUNDED, HOLE, 2);
    SpenderConnects();
    hide Connect, ComplainsAboutFirst;
    PaidIsThere();
    assert HOLE.vtx[1].vout[0] == PAID;
    assert Entry(AFTER_SPENDER, 3).IsPruned();
    SpentHoleFails(FUNDED, HOLE, SPENDER, 2, 1);
  }

  lemma HoleConnects()
    ensures Connect(FUNDED, HOLE, 2) != None && Connect(FUNDED, HOLE, 2).value.view == AFTER_HOLE
    ensures HeightsPositive(FUNDED)
  {
    hide Connect;
    PaidIsThere();
    assert Trim([NULL_OUT]) == [];
    TwoConnect(FUNDED, HOLE, 2, Coins(false, [], 1, 1));
  }

  lemma SpenderConnects()
    ensures Connect(AFTER_HOLE, SPENDER, 3) != None && Connect(AFTER_HOLE, SPENDER, 3).value.view == AFTER_SPENDER
  {
    hide Connect;
    PaidIsThere();
    assert Trim([NULL_OUT, NULL_OUT]) == Trim([NULL_OUT]) == [];
    TwoConnect(AFTER_HOLE, SPENDER, 3, Coins(false, [], 2, 1));
  }
}
