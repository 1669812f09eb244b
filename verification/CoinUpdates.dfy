/** What connecting and disconnecting a block do to the visible coins, and why the second undoes
    the first. */
module CoinUpdates {
  import opened Transactions
  import opened Coins
  import opened BlockIndexes
  import opened CoinsViews

  // ---------------------------------------------------------------- checks

  predicate DistinctPrevouts(vin: seq<TxIn>) {
    forall i, j | 0 <= i < j < |vin| :: vin[i].prevout != vin[j].prevout
  }

  /** The structural part of CheckTransaction. */
  predicate CheckTransaction(tx: Transaction) {
    && tx.vin != []
    && tx.vout != []
    && DistinctPrevouts(tx.vin)
    && if tx.IsCoinBase() then 2 <= |tx.vin[0].scriptSig| <= 100
       else forall i | 0 <= i < |tx.vin| :: !tx.vin[i].prevout.IsNull()
  }

  /** The structural part of CheckBlock. */
  predicate CheckBlock(block: Block) {
    && block.vtx != []
    && block.vtx[0].IsCoinBase()
    && (forall i | 1 <= i < |block.vtx| :: !block.vtx[i].IsCoinBase())
    && (forall i | 0 <= i < |block.vtx| :: CheckTransaction(block.vtx[i]))
    && (forall i, j | 0 <= i < j < |block.vtx| :: block.vtx[i].hash != block.vtx[j].hash)
  }

  function Utxo(view: View, out: OutPoint): Option<TxOut> {
    Entry(view, out.hash).Slot(out.n)
  }

  predicate InputsAvailable(view: View, vin: seq<TxIn>) {
    forall i | 0 <= i < |vin| :: Utxo(view, vin[i].prevout) != None
  }

  /** No transaction of the block overwrites coins that are not completely spent. */
  predicate NoOverwrite(view: View, vtx: seq<Transaction>) {
    forall i | 0 <= i < |vtx| :: Entry(view, vtx[i].hash).IsPruned()
  }

  // ---------------------------------------------------------------- connecting

  /** A view together with the undo records collected on the way to it. */
  datatype Spending = Spending(view: View, undo: TxUndo)

  /** Spend the first `k` inputs.  None when one of them is not there to be spent, which the
      program treats as a broken assertion. */
  function SpendInputs(view: View, vin: seq<TxIn>, k: nat): Option<Spending>
    requires k <= |vin|
    decreases k
  {
    if k == 0 then Some(Spending(view, []))
    else match SpendInputs(view, vin, k - 1)
      case None => None
      case Some(s) => SpendInput(s, vin[k - 1].prevout)
  }

  function SpendInput(s: Spending, out: OutPoint): Option<Spending> {
    var coins := Entry(s.view, out.hash);
    if !coins.IsAvailable(out.n) then None
    else Some(Spending(Put(s.view, out.hash, coins.Spent(out.n)), s.undo + [coins.SpendUndo(out.n)]))
  }

  /** What a transaction spends; a coinbase spends nothing. */
  function SpendAll(view: View, tx: Transaction): Option<Spending> {
    if tx.IsCoinBase() then Some(Spending(view, []))
    else if !InputsAvailable(view, tx.vin) then None
    else SpendInputs(view, tx.vin, |tx.vin|)
  }

  datatype Connected = Connected(view: View, undo: BlockUndo)

  /** Apply one transaction after the ones that led to `c`. */
  function ConnectTx(c: Connected, tx: Transaction, nHeight: nat): Option<Connected> {
    match SpendAll(c.view, tx)
    case None => None
    case Some(s) =>
      Some(Connected(Put(s.view, tx.hash, TxCoins(tx, nHeight)), if tx.IsCoinBase() then c.undo else c.undo + [s.undo]))
  }

  /** Apply the first `k` transactions; None when one of them lacks an input. */
  function ConnectTxs(view: View, vtx: seq<Transaction>, k: nat, nHeight: nat): Option<Connected>
    requires k <= |vtx|
    decreases k
  {
    if k == 0 then Some(Connected(view, []))
    else match ConnectTxs(view, vtx, k - 1, nHeight)
      case None => None
      case Some(c) => ConnectTx(c, vtx[k - 1], nHeight)
  }

  /** Apply a whole block; None when it may not be connected here. */
  function Connect(view: View, block: Block, nHeight: nat): Option<Connected> {
    if !CheckBlock(block) || !NoOverwrite(view, block.vtx) then None
    else ConnectTxs(view, block.vtx, |block.vtx|, nHeight)
  }

  // ---------------------------------------------------------------- disconnecting

  function RestoreInput(view: View, out: OutPoint, undo: InUndo): View {
    Put(view, out.hash, Restored(Entry(view, out.hash), out.n, undo))
  }

  predicate RestoreInputClean(view: View, out: OutPoint, undo: InUndo) {
    RestoreClean(Entry(view, out.hash), out.n, undo)
  }

  /** Put back the first `k` inputs, the last of them first. */
  function RestoreInputs(view: View, vin: seq<TxIn>, undo: TxUndo, k: nat): View
    requires k <= |vin| == |undo|
    decreases k
  {
    if k == 0 then view
    else RestoreInputs(RestoreInput(view, vin[k - 1].prevout, undo[k - 1]), vin, undo, k - 1)
  }

  predicate RestoreInputsClean(view: View, vin: seq<TxIn>, undo: TxUndo, k: nat)
    requires k <= |vin| == |undo|
    decreases k
  {
    k == 0 ||
    (&& RestoreInputClean(view, vin[k - 1].prevout, undo[k - 1])
     && RestoreInputsClean(RestoreInput(view, vin[k - 1].prevout, undo[k - 1]), vin, undo, k - 1))
  }

  /** The transaction's own entry is what connecting it would have left. */
  predicate OutputsMatch(view: View, tx: Transaction, nHeight: nat) {
    var expected := TxCoins(tx, nHeight);
    tx.hash !in view ||
    CoinsEqual(if expected.nVersion < 0 then view[tx.hash].(nVersion := expected.nVersion) else view[tx.hash], expected)
  }

  /** The undo data has the shape of the block. */
  predicate UndoFits(vtx: seq<Transaction>, undo: BlockUndo) {
    && |undo| + 1 == |vtx|
    && forall i | 1 <= i < |vtx| :: |undo[i - 1]| == |vtx[i].vin|
  }

  /** Take back transaction `i`. */
  function DisconnectTx(view: View, vtx: seq<Transaction>, undo: BlockUndo, i: nat): View
    requires i < |vtx| && UndoFits(vtx, undo)
  {
    var v := Put(view, vtx[i].hash, NO_COINS);
    if i == 0 then v else RestoreInputs(v, vtx[i].vin, undo[i - 1], |vtx[i].vin|)
  }

  predicate DisconnectTxClean(view: View, vtx: seq<Transaction>, undo: BlockUndo, i: nat, nHeight: nat)
    requires i < |vtx| && UndoFits(vtx, undo)
  {
    && OutputsMatch(view, vtx[i], nHeight)
    && (i > 0 ==> RestoreInputsClean(Put(view, vtx[i].hash, NO_COINS), vtx[i].vin, undo[i - 1], |vtx[i].vin|))
  }

  /** Take back the first `k` transactions, the last of them first. */
  function Disconnect(view: View, vtx: seq<Transaction>, undo: BlockUndo, k: nat): View
    requires k <= |vtx| && UndoFits(vtx, undo)
    decreases k
  {
    if k == 0 then view else Disconnect(DisconnectTx(view, vtx, undo, k - 1), vtx, undo, k - 1)
  }

  predicate DisconnectClean(view: View, vtx: seq<Transaction>, undo: BlockUndo, k: nat, nHeight: nat)
    requires k <= |vtx| && UndoFits(vtx, undo)
    decreases k
  {
    k == 0 ||
    (&& DisconnectTxClean(view, vtx, undo, k - 1, nHeight)
     && DisconnectClean(DisconnectTx(view, vtx, undo, k - 1), vtx, undo, k - 1, nHeight))
  }

  // ---------------------------------------------------------------- what a spend leaves

  lemma SpendInputSlots(s: Spending, out: OutPoint, other: OutPoint)
    requires SpendInput(s, out) != None
    ensures Utxo(SpendInput(s, out).value.view, other) == if other == out then None else Utxo(s.view, other)
  {
    SpentSlots(Entry(s.view, out.hash), out.n);
  }

  predicate Spends(vin: seq<TxIn>, k: nat, out: OutPoint)
    requires k <= |vin|
  {
    exists i | 0 <= i < k :: vin[i].prevout == out
  }

  /** Spending inputs takes exactly those outputs. */
  lemma {:induction false} SpendInputsSlots(view: View, vin: seq<TxIn>, k: nat, out: OutPoint)
    requires k <= |vin| && SpendInputs(view, vin, k) != None
    ensures Utxo(SpendInputs(view, vin, k).value.view, out) == if Spends(vin, k, out) then None else Utxo(view, out)
    decreases k
  {
    hide Utxo, SpendInput;
    if k > 0 {
      SpendInputsSlots(view, vin, k - 1, out);
      SpendInputSlots(SpendInputs(view, vin, k - 1).value, vin[k - 1].prevout, out);
      assert Spends(vin, k, out) <==> Spends(vin, k - 1, out) || vin[k - 1].prevout == out;
    }
  }

  lemma {:induction false} SpendInputsCount(view: View, vin: seq<TxIn>, k: nat)
    requires k <= |vin| && SpendInputs(view, vin, k) != None
    ensures |SpendInputs(view, vin, k).value.undo| == k
    decreases k
  {
    hide Coins.Spent, Coins.SpendUndo, Put;
    if k > 0 {
      SpendInputsCount(view, vin, k - 1);
    }
  }

  /** When all inputs are there and no two are the same, the assertion in the spending loop holds. */
  lemma {:induction false} SpendInputsDefined(view: View, vin: seq<TxIn>, k: nat)
    requires k <= |vin| && DistinctPrevouts(vin) && InputsAvailable(view, vin)
    ensures SpendInputs(view, vin, k) != None
    decreases k
  {
    hide Coins.Spent, Coins.SpendUndo;
    if k > 0 {
      SpendInputsDefined(view, vin, k - 1);
      SpendInputsSlots(view, vin, k - 1, vin[k - 1].prevout);
    }
  }

  // ---------------------------------------------------------------- indistinguishable views

  lemma SameUtxo(a: View, b: View, out: OutPoint)
    requires SameView(a, b)
    ensures Utxo(a, out) == Utxo(b, out)
  {
    assert SameCoins(Entry(a, out.hash), Entry(b, out.hash));
    SameCoinsMeaning(Entry(a, out.hash), Entry(b, out.hash));
  }

  lemma SameInputsAvailable(a: View, b: View, vin: seq<TxIn>)
    requires SameView(a, b)
    ensures InputsAvailable(a, vin) == InputsAvailable(b, vin)
  {
    forall i | 0 <= i < |vin|
      ensures Utxo(a, vin[i].prevout) == Utxo(b, vin[i].prevout)
    {
      SameUtxo(a, b, vin[i].prevout);
    }
  }

  lemma SamePut(a: View, b: View, txid: Hash, c: Coins, d: Coins)
    requires SameView(a, b) && SameCoins(c, d)
    ensures SameView(Put(a, txid, c), Put(b, txid, d))
  {
    forall id: Hash
      ensures SameCoins(Entry(Put(a, txid, c), id), Entry(Put(b, txid, d), id))
    {
      assert SameCoins(Entry(a, id), Entry(b, id));
    }
  }

  lemma SpendInputSame(s: Spending, t: Spending, out: OutPoint)
    requires SameView(s.view, t.view) && s.undo == t.undo
    ensures SpendInput(s, out) == None <==> SpendInput(t, out) == None
    ensures SpendInput(s, out) != None ==>
      && SameView(SpendInput(s, out).value.view, SpendInput(t, out).value.view)
      && SpendInput(s, out).value.undo == SpendInput(t, out).value.undo
  {
    SameUtxo(s.view, t.view, out);
    var c, d := Entry(s.view, out.hash), Entry(t.view, out.hash);
    if c.IsAvailable(out.n) {
      SpendSame(c, d, out.n);
      SamePut(s.view, t.view, out.hash, c.Spent(out.n), d.Spent(out.n));
    }
  }

  lemma {:induction false} SpendInputsSame(a: View, b: View, vin: seq<TxIn>, k: nat)
    requires k <= |vin| && SameView(a, b)
    ensures SpendInputs(a, vin, k) == None <==> SpendInputs(b, vin, k) == None
    ensures SpendInputs(a, vin, k) != None ==>
      && SameView(SpendInputs(a, vin, k).value.view, SpendInputs(b, vin, k).value.view)
      && SpendInputs(a, vin, k).value.undo == SpendInputs(b, vin, k).value.undo
    decreases k
  {
    hide SameView, SpendInput;
    if k > 0 {
      SpendInputsSame(a, b, vin, k - 1);
      if SpendInputs(a, vin, k - 1) != None {
        SpendInputSame(SpendInputs(a, vin, k - 1).value, SpendInputs(b, vin, k - 1).value, vin[k - 1].prevout);
      }
    }
  }

  ghost predicate SameConnected(c: Option<Connected>, d: Option<Connected>) {
    && (c == None <==> d == None)
    && (c != None ==> SameView(c.value.view, d.value.view) && c.value.undo == d.value.undo)
  }

  lemma ConnectTxSame(c: Connected, d: Connected, tx: Transaction, nHeight: nat)
    requires SameView(c.view, d.view) && c.undo == d.undo
    ensures SameConnected(ConnectTx(c, tx, nHeight), ConnectTx(d, tx, nHeight))
  {
    SameInputsAvailable(c.view, d.view, tx.vin);
    SpendInputsSame(c.view, d.view, tx.vin, |tx.vin|);
    if SpendAll(c.view, tx) != None {
      SamePut(SpendAll(c.view, tx).value.view, SpendAll(d.view, tx).value.view, tx.hash, TxCoins(tx, nHeight),
              TxCoins(tx, nHeight));
    }
  }

  lemma {:induction false} ConnectTxsSame(a: View, b: View, vtx: seq<Transaction>, k: nat, nHeight: nat)
    requires k <= |vtx| && SameView(a, b)
    ensures SameConnected(ConnectTxs(a, vtx, k, nHeight), ConnectTxs(b, vtx, k, nHeight))
    decreases k
  {
    hide ConnectTx, SameView;
    if k > 0 {
      ConnectTxsSame(a, b, vtx, k - 1, nHeight);
      if ConnectTxs(a, vtx, k - 1, nHeight) != None {
        ConnectTxSame(ConnectTxs(a, vtx, k - 1, nHeight).value, ConnectTxs(b, vtx, k - 1, nHeight).value, vtx[k - 1],
                      nHeight);
      }
    }
  }

  /** Connecting cannot tell indistinguishable views apart: same verdict, same unspent outputs,
      and the very same undo data. */
  lemma ConnectSame(a: View, b: View, block: Block, nHeight: nat)
    requires SameView(a, b)
    ensures SameConnected(Connect(a, block, nHeight), Connect(b, block, nHeight))
  {
    forall i | 0 <= i < |block.vtx|
      ensures Entry(a, block.vtx[i].hash).IsPruned() == Entry(b, block.vtx[i].hash).IsPruned()
    {
      assert SameCoins(Entry(a, block.vtx[i].hash), Entry(b, block.vtx[i].hash));
      NormalSlots(Entry(a, block.vtx[i].hash));
      NormalSlots(Entry(b, block.vtx[i].hash));
    }
    ConnectTxsSame(a, b, block.vtx, |block.vtx|, nHeight);
  }

  // ---------------------------------------------------------------- heights

  /** No unspent output comes from height 0, which undo data could not express. */
  ghost predicate HeightsPositive(view: View) {
    forall txid: Hash :: Entry(view, txid).IsPruned() || Entry(view, txid).nHeight >= 1
  }

  lemma {:induction false} SpendInputsHeights(view: View, vin: seq<TxIn>, k: nat)
    requires k <= |vin| && HeightsPositive(view) && SpendInputs(view, vin, k) != None
    ensures HeightsPositive(SpendInputs(view, vin, k).value.view)
    decreases k
  {
    if k > 0 {
      SpendInputsHeights(view, vin, k - 1);
    }
  }

  lemma {:induction false} ConnectTxsHeights(view: View, vtx: seq<Transaction>, k: nat, nHeight: nat)
    requires k <= |vtx| && HeightsPositive(view) && nHeight >= 1 && ConnectTxs(view, vtx, k, nHeight) != None
    ensures HeightsPositive(ConnectTxs(view, vtx, k, nHeight).value.view)
    decreases k
  {
    if k > 0 {
      ConnectTxsHeights(view, vtx, k - 1, nHeight);
      var v, tx := ConnectTxs(view, vtx, k - 1, nHeight).value.view, vtx[k - 1];
      if !tx.IsCoinBase() {
        SpendInputsHeights(v, tx.vin, |tx.vin|);
      }
    }
  }

  // ---------------------------------------------------------------- disconnecting undoes connecting

  lemma RestoreUndoesSpendInput(s: Spending, w: View, out: OutPoint)
    requires SpendInput(s, out) != None && HeightsPositive(s.view)
    requires SameView(SpendInput(s, out).value.view, w)
    ensures SpendInput(s, out).value.undo[..|s.undo|] == s.undo
    ensures RestoreInputClean(w, out, SpendInput(s, out).value.undo[|s.undo|])
    ensures SameView(s.view, RestoreInput(w, out, SpendInput(s, out).value.undo[|s.undo|]))
  {
    var c, d := Entry(s.view, out.hash), Entry(w, out.hash);
    var undo := c.SpendUndo(out.n);
    var spent := SpendInput(s, out).value.view;
    assert SameCoins(Entry(spent, out.hash), d);
    assert c.nHeight >= 1;
    RestoreUndoesSpend(c, d, out.n);
    var w' := RestoreInput(w, out, undo);
    forall id: Hash
      ensures SameCoins(Entry(s.view, id), Entry(w', id))
    {
      assert SameCoins(Entry(spent, id), Entry(w, id));
    }
  }

  /** Restoring the inputs, last one first, brings back the view before the spends. */
  lemma {:induction false} RestoreUndoesSpends(v: View, w: View, vin: seq<TxIn>, undo: TxUndo, k: nat)
    requires k <= |vin| == |undo| && HeightsPositive(v) && SpendInputs(v, vin, k) != None
    requires undo[..k] == SpendInputs(v, vin, k).value.undo
    requires SameView(SpendInputs(v, vin, k).value.view, w)
    ensures SameView(v, RestoreInputs(w, vin, undo, k))
    ensures RestoreInputsClean(w, vin, undo, k)
    decreases k
  {
    hide RestoreInput, RestoreInputClean, HeightsPositive, SameView, SpendInput;
    if k > 0 {
      var s, out := SpendInputs(v, vin, k - 1).value, vin[k - 1].prevout;
      SpendInputsCount(v, vin, k - 1);
      SpendInputsHeights(v, vin, k - 1);
      RestoreUndoesSpendInput(s, w, out);
      assert undo[..k - 1] == undo[..k][..k - 1] && undo[k - 1] == undo[..k][k - 1];
      RestoreUndoesSpends(v, RestoreInput(w, out, undo[k - 1]), vin, undo, k - 1);
    }
  }

  lemma SpendingKeepsPruned(view: View, tx: Transaction, txid: Hash)
    requires SpendAll(view, tx) != None && Entry(view, txid).IsPruned()
    ensures Entry(SpendAll(view, tx).value.view, txid).IsPruned()
  {
    var v := SpendAll(view, tx).value.view;
    PrunedSlots(Entry(view, txid));
    PrunedSlots(Entry(v, txid));
    forall n: nat
      ensures Entry(v, txid).Slot(n) == None
    {
      assert Utxo(view, OutPoint(txid, n)) == None;
      if !tx.IsCoinBase() {
        SpendInputsSlots(view, tx.vin, |tx.vin|, OutPoint(txid, n));
      }
      assert Utxo(v, OutPoint(txid, n)) == None;
    }
  }

  predicate DistinctHashes(vtx: seq<Transaction>) {
    forall i, j | 0 <= i < j < |vtx| :: vtx[i].hash != vtx[j].hash
  }

  /** While a block is being connected, the entries of its later transactions stay pruned. */
  lemma {:induction false} LaterEntriesPruned(view: View, vtx: seq<Transaction>, k: nat, nHeight: nat, j: nat)
    requires DistinctHashes(vtx) && NoOverwrite(view, vtx) && k <= j < |vtx|
    requires ConnectTxs(view, vtx, k, nHeight) != None
    ensures Entry(ConnectTxs(view, vtx, k, nHeight).value.view, vtx[j].hash).IsPruned()
    decreases k
  {
    if k > 0 {
      LaterEntriesPruned(view, vtx, k - 1, nHeight, j);
      SpendingKeepsPruned(ConnectTxs(view, vtx, k - 1, nHeight).value.view, vtx[k - 1], vtx[j].hash);
      assert vtx[k - 1].hash != vtx[j].hash;
    }
  }

  /** The first transaction is a coinbase, and no other. */
  predicate OneCoinBase(vtx: seq<Transaction>) {
    forall i | 0 <= i < |vtx| :: vtx[i].IsCoinBase() <==> i == 0
  }

  /** The undo data of the first `k` transactions. */
  function UndoUpTo(undo: BlockUndo, k: nat): BlockUndo
    requires k <= |undo| + 1
  {
    if k == 0 then [] else undo[..k - 1]
  }

  /** `undo` starts with what connecting the first `k` transactions records. */
  ghost predicate Records(view: View, vtx: seq<Transaction>, undo: BlockUndo, k: nat, nHeight: nat)
  {
    && k <= |vtx| == |undo| + 1
    && ConnectTxs(view, vtx, k, nHeight) != None
    && ConnectTxs(view, vtx, k, nHeight).value.undo == UndoUpTo(undo, k)
  }

  lemma RecordsShrink(view: View, vtx: seq<Transaction>, undo: BlockUndo, k: nat, nHeight: nat)
    requires OneCoinBase(vtx) && 0 < k && Records(view, vtx, undo, k, nHeight)
    ensures Records(view, vtx, undo, k - 1, nHeight)
    ensures k > 1 ==> undo[k - 2] == SpendAll(ConnectTxs(view, vtx, k - 1, nHeight).value.view, vtx[k - 1]).value.undo
  {
    var before := ConnectTxs(view, vtx, k - 1, nHeight).value.undo;
    if k > 1 {
      var last := SpendAll(ConnectTxs(view, vtx, k - 1, nHeight).value.view, vtx[k - 1]).value.undo;
      assert undo[..k - 1] == before + [last];
      assert before == undo[..k - 1][..k - 2] == undo[..k - 2];
      assert last == undo[..k - 1][k - 2];
    }
  }

  /** Clearing a transaction's own entry returns to the view it spent its inputs from. */
  lemma ClearingUndoesCreation(view: View, w: View, vtx: seq<Transaction>, k: nat, nHeight: nat)
    requires DistinctHashes(vtx) && NoOverwrite(view, vtx) && 0 < k <= |vtx|
    requires ConnectTxs(view, vtx, k, nHeight) != None
    requires SameView(ConnectTxs(view, vtx, k, nHeight).value.view, w)
    ensures SameView(SpendAll(ConnectTxs(view, vtx, k - 1, nHeight).value.view, vtx[k - 1]).value.view,
                     Put(w, vtx[k - 1].hash, NO_COINS))
  {
    var tx := vtx[k - 1];
    var v := ConnectTxs(view, vtx, k - 1, nHeight).value.view;
    var s, w' := SpendAll(v, tx).value.view, Put(w, tx.hash, NO_COINS);
    LaterEntriesPruned(view, vtx, k - 1, nHeight, k - 1);
    SpendingKeepsPruned(v, tx, tx.hash);
    PrunedAreSame(Entry(s, tx.hash), NO_COINS);
    forall id: Hash
      ensures SameCoins(Entry(s, id), Entry(w', id))
    {
      assert SameCoins(Entry(Put(s, tx.hash, TxCoins(tx, nHeight)), id), Entry(w, id));
    }
  }

  /** Taking back transaction `k - 1` returns to the view before it. */
  lemma DisconnectUndoesTx(view: View, w: View, vtx: seq<Transaction>, undo: BlockUndo, k: nat, nHeight: nat)
    requires OneCoinBase(vtx) && DistinctHashes(vtx) && NoOverwrite(view, vtx) && UndoFits(vtx, undo)
    requires HeightsPositive(view) && nHeight >= 1 && 0 < k && Records(view, vtx, undo, k, nHeight)
    requires SameView(ConnectTxs(view, vtx, k, nHeight).value.view, w)
    ensures Records(view, vtx, undo, k - 1, nHeight)
    ensures SameView(ConnectTxs(view, vtx, k - 1, nHeight).value.view, DisconnectTx(w, vtx, undo, k - 1))
    ensures DisconnectTxClean(w, vtx, undo, k - 1, nHeight) == OutputsMatch(w, vtx[k - 1], nHeight)
  {
    hide SameView, HeightsPositive, NoOverwrite, DistinctHashes, SpendInputs, RestoreInputs, RestoreInputsClean;
    hide OutputsMatch, TxCoins;
    RecordsShrink(view, vtx, undo, k, nHeight);
    ClearingUndoesCreation(view, w, vtx, k, nHeight);
    if k > 1 {
      var tx := vtx[k - 1];
      ConnectTxsHeights(view, vtx, k - 1, nHeight);
      assert undo[k - 2][..|tx.vin|] == undo[k - 2];
      RestoreUndoesSpends(ConnectTxs(view, vtx, k - 1, nHeight).value.view, Put(w, tx.hash, NO_COINS), tx.vin,
                          undo[k - 2], |tx.vin|);
    }
  }

  /** Every transaction, last one first, finds its own outputs as they were created. */
  predicate AllOutputsMatch(view: View, vtx: seq<Transaction>, undo: BlockUndo, k: nat, nHeight: nat)
    requires k <= |vtx| && UndoFits(vtx, undo)
    decreases k
  {
    k == 0 ||
    (&& OutputsMatch(view, vtx[k - 1], nHeight)
     && AllOutputsMatch(DisconnectTx(view, vtx, undo, k - 1), vtx, undo, k - 1, nHeight))
  }

  lemma {:induction false} DisconnectUndoesTxs(view: View, w: View, vtx: seq<Transaction>, undo: BlockUndo, k: nat,
                                               nHeight: nat)
    requires OneCoinBase(vtx) && DistinctHashes(vtx) && NoOverwrite(view, vtx) && UndoFits(vtx, undo)
    requires HeightsPositive(view) && nHeight >= 1 && Records(view, vtx, undo, k, nHeight)
    requires SameView(ConnectTxs(view, vtx, k, nHeight).value.view, w)
    ensures SameView(view, Disconnect(w, vtx, undo, k))
    ensures DisconnectClean(w, vtx, undo, k, nHeight) == AllOutputsMatch(w, vtx, undo, k, nHeight)
    decreases k
  {
    hide SameView, OutputsMatch, DisconnectTx, DisconnectTxClean, DistinctHashes, NoOverwrite, UndoFits, OneCoinBase;
    hide HeightsPositive, ConnectTx;
    if k > 0 {
      DisconnectUndoesTx(view, w, vtx, undo, k, nHeight);
      DisconnectUndoesTxs(view, DisconnectTx(w, vtx, undo, k - 1), vtx, undo, k - 1, nHeight);
    }
  }

  lemma {:induction false} UndoCount(view: View, vtx: seq<Transaction>, k: nat, nHeight: nat)
    requires OneCoinBase(vtx) && k <= |vtx| && ConnectTxs(view, vtx, k, nHeight) != None
    ensures |ConnectTxs(view, vtx, k, nHeight).value.undo| == if k == 0 then 0 else k - 1
    decreases k
  {
    hide SpendAll, SpendInputs, InputsAvailable;
    if k > 0 {
      UndoCount(view, vtx, k - 1, nHeight);
    }
  }

  /** Connecting writes one undo record per transaction but the coinbase, and one per input. */
  lemma {:induction false} UndoSizes(view: View, vtx: seq<Transaction>, undo: BlockUndo, k: nat, nHeight: nat, i: nat)
    requires OneCoinBase(vtx) && Records(view, vtx, undo, k, nHeight) && 1 <= i < k
    ensures |undo[i - 1]| == |vtx[i].vin|
    decreases k
  {
    hide SpendInputs, InputsAvailable;
    RecordsShrink(view, vtx, undo, k, nHeight);
    if i == k - 1 {
      SpendInputsCount(ConnectTxs(view, vtx, k - 1, nHeight).value.view, vtx[i].vin, |vtx[i].vin|);
    } else {
      UndoSizes(view, vtx, undo, k - 1, nHeight, i);
    }
  }

  /** Disconnecting with the recorded undo data restores exactly the unspent outputs there were
      before, from any view that shows what connecting left.  The only complaint it can raise is
      that some transaction's own outputs do not look as they were created. */
  lemma DisconnectUndoesConnect(view: View, w: View, block: Block, nHeight: nat)
    requires HeightsPositive(view) && nHeight >= 1
    requires Connect(view, block, nHeight) != None && SameView(Connect(view, block, nHeight).value.view, w)
    ensures UndoFits(block.vtx, Connect(view, block, nHeight).value.undo)
    ensures SameView(view, Disconnect(w, block.vtx, Connect(view, block, nHeight).value.undo, |block.vtx|))
    ensures DisconnectClean(w, block.vtx, Connect(view, block, nHeight).value.undo, |block.vtx|, nHeight) ==
      AllOutputsMatch(w, block.vtx, Connect(view, block, nHeight).value.undo, |block.vtx|, nHeight)
  {
    hide SameView, HeightsPositive, NoOverwrite, ConnectTxs, Disconnect, DisconnectClean, AllOutputsMatch;
    var undo := Connect(view, block, nHeight).value.undo;
    UndoCount(view, block.vtx, |block.vtx|, nHeight);
    assert undo[..|block.vtx| - 1] == undo;
    forall i | 1 <= i < |block.vtx|
      ensures |undo[i - 1]| == |block.vtx[i].vin|
    {
      UndoSizes(view, block.vtx, undo, |block.vtx|, nHeight, i);
    }
    DisconnectUndoesTxs(view, w, block.vtx, undo, |block.vtx|, nHeight);
  }
}
