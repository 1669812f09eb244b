/** The unspent outputs of one transaction, and the record that undoes a spend. */
module Coins {
  import opened Transactions

  /** What a spend removed.  The metadata is only filled in (`nHeight != 0`) when the spent
      output was the last one left. */
  datatype InUndo = InUndo(txout: TxOut, fCoinBase: bool, nHeight: nat, nVersion: int)

  /** The outputs without the spent ones at the end. */
  function Trim(vout: seq<TxOut>): (r: seq<TxOut>)
    ensures r <= vout
    ensures forall i | |r| <= i < |vout| :: vout[i].IsNull()
    ensures r != [] ==> !r[|r| - 1].IsNull()
  {
    if vout != [] && vout[|vout| - 1].IsNull() then Trim(vout[..|vout| - 1]) else vout
  }

  datatype Coins = Coins(fCoinBase: bool, vout: seq<TxOut>, nHeight: nat, nVersion: int) {
    predicate IsAvailable(n: nat) {
      n < |vout| && !vout[n].IsNull()
    }

    predicate IsPruned() {
      forall i | 0 <= i < |vout| :: vout[i].IsNull()
    }

    /** The output at position `n`, when it is still unspent. */
    function Slot(n: nat): Option<TxOut> {
      if IsAvailable(n) then Some(vout[n]) else None
    }

    /** The coins left after spending output `n`. */
    function Spent(n: nat): Coins
      requires IsAvailable(n)
    {
      this.(vout := Trim(vout[n := NULL_OUT]))
    }

    /** The record that undoes spending output `n`. */
    function SpendUndo(n: nat): InUndo
      requires IsAvailable(n)
    {
      if Spent(n).vout == [] then InUndo(vout[n], fCoinBase, nHeight, nVersion)
      else InUndo(vout[n], false, 0, 0)
    }

    /** Grow to at least `size` outputs, new ones being spent. */
    function Resized(size: nat): Coins {
      if |vout| < size then this.(vout := vout + seq(size - |vout|, _ => NULL_OUT)) else this
    }

    method Cleanup() returns (coins: Coins)
      ensures coins == this.(vout := Trim(vout))
    {
      var outs := vout;
      while |outs| > 0 && outs[|outs| - 1].IsNull()
        invariant Trim(outs) == Trim(vout)
      {
        outs := outs[..|outs| - 1];
      }
      coins := this.(vout := outs);
    }

    /** Mark an output spent and say how to undo that. */
    method Spend(n: nat) returns (ok: bool, coins: Coins, undo: InUndo)
      ensures ok == IsAvailable(n)
      ensures ok ==> coins == Spent(n) && undo == SpendUndo(n)
      ensures !ok ==> coins == this
    {
      if n >= |vout| || vout[n].IsNull() {
        return false, this, InUndo(NULL_OUT, false, 0, 0);
      }
      undo := InUndo(vout[n], false, 0, 0);
      coins := this.(vout := vout[n := NULL_OUT]);
      coins := coins.Cleanup();
      if |coins.vout| == 0 {
        undo := undo.(nHeight := coins.nHeight, fCoinBase := coins.fCoinBase, nVersion := coins.nVersion);
      }
      ok := true;
    }
  }

  const NO_COINS := Coins(false, [], 0, 0)

  function TxCoins(tx: Transaction, nHeight: nat): Coins {
    Coins(tx.IsCoinBase(), tx.vout, nHeight, tx.nVersion)
  }

  /** The program's `==` on coins. */
  predicate CoinsEqual(a: Coins, b: Coins) {
    && a.fCoinBase == b.fCoinBase
    && a.nHeight == b.nHeight
    && a.nVersion == b.nVersion
    && TxOutsEqual(a.vout, b.vout)
  }

  /** Put a spent output back. */
  function Restored(coins: Coins, n: nat, undo: InUndo): Coins {
    var c := if undo.nHeight != 0 then Coins(undo.fCoinBase, [], undo.nHeight, undo.nVersion) else coins;
    var grown := c.Resized(n + 1);
    grown.(vout := grown.vout[n := undo.txout])
  }

  /** Nothing surprising was found while putting the output back. */
  predicate RestoreClean(coins: Coins, n: nat, undo: InUndo) {
    && (undo.nHeight != 0 <==> coins.IsPruned())
    && (undo.nHeight == 0 ==> !coins.IsAvailable(n))
  }

  /** Spent outputs in their one standard form. */
  function Blanked(vout: seq<TxOut>): seq<TxOut> {
    seq(|vout|, i requires 0 <= i < |vout| => if vout[i].IsNull() then NULL_OUT else vout[i])
  }

  /** A standard form: no trailing spent outputs, the others blank, nothing at all when pruned. */
  function Normal(c: Coins): Coins {
    var vout := Trim(Blanked(c.vout));
    if vout == [] then NO_COINS else c.(vout := vout)
  }

  /** Coins that cannot be told apart by what is still unspent. */
  predicate SameCoins(c: Coins, d: Coins) {
    Normal(c) == Normal(d)
  }

  lemma NormalSlots(c: Coins)
    ensures forall n: nat :: Normal(c).Slot(n) == c.Slot(n)
    ensures c.IsPruned() <==> Normal(c) == NO_COINS
    ensures Normal(c) != NO_COINS ==>
      c.fCoinBase == Normal(c).fCoinBase && c.nHeight == Normal(c).nHeight && c.nVersion == Normal(c).nVersion
  {
    var b := Blanked(c.vout);
    var t := Trim(b);
    forall n: nat
      ensures Coins(c.fCoinBase, t, c.nHeight, c.nVersion).Slot(n) == c.Slot(n)
    {
      if n < |t| {
        assert t[n] == b[n];
      } else if n < |b| {
        assert b[n].IsNull();
      }
    }
    if t != [] {
      assert !t[|t| - 1].IsNull() && t[|t| - 1] == b[|t| - 1];
    } else {
      forall i | 0 <= i < |c.vout|
        ensures c.vout[i].IsNull()
      {
        assert b[i].IsNull();
      }
    }
  }

  /** Two lists without trailing spent outputs and with blank spent ones, having the same unspent
      outputs, are the same. */
  lemma SameSlotsSameNormal(c: Coins, d: Coins)
    requires forall n: nat :: c.Slot(n) == d.Slot(n)
    ensures Trim(Blanked(c.vout)) == Trim(Blanked(d.vout))
  {
    var s, t := Trim(Blanked(c.vout)), Trim(Blanked(d.vout));
    TrimmedNotShorter(c, d);
    TrimmedNotShorter(d, c);
    forall i | 0 <= i < |s|
      ensures s[i] == t[i]
    {
      assert s[i] == Blanked(c.vout)[i] && t[i] == Blanked(d.vout)[i];
      assert c.Slot(i) == d.Slot(i);
    }
  }

  lemma TrimmedNotShorter(c: Coins, d: Coins)
    requires forall n: nat :: c.Slot(n) == d.Slot(n)
    ensures |Trim(Blanked(c.vout))| <= |Trim(Blanked(d.vout))|
  {
    var s, t := Trim(Blanked(c.vout)), Trim(Blanked(d.vout));
    if s != [] {
      var last := |s| - 1;
      assert !s[last].IsNull() && s[last] == Blanked(c.vout)[last];
      assert c.Slot(last) == Some(c.vout[last]) == d.Slot(last);
      assert !Blanked(d.vout)[last].IsNull();
    }
  }

  /** Being the same means having the same unspent outputs and, when there are any, the same
      metadata. */
  lemma SameCoinsMeaning(c: Coins, d: Coins)
    ensures SameCoins(c, d) <==>
      && (forall n: nat :: c.Slot(n) == d.Slot(n))
      && (c.IsPruned() || (c.fCoinBase == d.fCoinBase && c.nHeight == d.nHeight && c.nVersion == d.nVersion))
  {
    NormalSlots(c);
    NormalSlots(d);
    if forall n: nat :: c.Slot(n) == d.Slot(n) {
      SameSlotsSameNormal(c, d);
    } else {
      var n: nat :| c.Slot(n) != d.Slot(n);
      assert Normal(c).Slot(n) != Normal(d).Slot(n);
    }
  }

  lemma PrunedSlots(c: Coins)
    ensures c.IsPruned() <==> forall n: nat :: c.Slot(n) == None
  {
    if forall n: nat :: c.Slot(n) == None {
      forall i | 0 <= i < |c.vout|
        ensures c.vout[i].IsNull()
      {
        assert c.Slot(i) == None;
      }
    }
  }

  lemma PrunedAreSame(c: Coins, d: Coins)
    requires c.IsPruned() && d.IsPruned()
    ensures SameCoins(c, d)
  {
    NormalSlots(c);
    NormalSlots(d);
  }

  /** A spend removes exactly the spent output. */
  lemma SpentSlots(c: Coins, n: nat)
    requires c.IsAvailable(n)
    ensures forall m: nat :: c.Spent(n).Slot(m) == if m == n then None else c.Slot(m)
    ensures c.Spent(n).vout == [] <==> c.Spent(n).IsPruned()
  {
    var outs := c.vout[n := NULL_OUT];
    var left := Trim(outs);
    forall m: nat
      ensures c.Spent(n).Slot(m) == if m == n then None else c.Slot(m)
    {
      if m < |left| {
        assert left[m] == outs[m];
      } else if m < |outs| {
        assert outs[m].IsNull();
      }
    }
  }

  /** Putting an output back adds exactly that output. */
  lemma RestoredSlots(c: Coins, n: nat, undo: InUndo)
    requires !undo.txout.IsNull()
    ensures forall m: nat :: (Restored(c, n, undo).Slot(m) ==
      if m == n then Some(undo.txout) else if undo.nHeight != 0 then None else c.Slot(m))
  {
  }

  /** Spending does the same to indistinguishable coins, and leaves the same undo record. */
  lemma SpendSame(c: Coins, d: Coins, n: nat)
    requires SameCoins(c, d) && c.IsAvailable(n)
    ensures d.IsAvailable(n)
    ensures SameCoins(c.Spent(n), d.Spent(n))
    ensures c.SpendUndo(n) == d.SpendUndo(n)
  {
    SameCoinsMeaning(c, d);
    assert c.Slot(n) == d.Slot(n);
    SpentSlots(c, n);
    SpentSlots(d, n);
    PrunedSlots(c.Spent(n));
    PrunedSlots(d.Spent(n));
    SameCoinsMeaning(c.Spent(n), d.Spent(n));
  }

  /** An undo record brings back what the spend took, and finds nothing surprising.  Height 0
      would be read as "not the last output", so the coins must not come from height 0. */
  lemma RestoreUndoesSpend(c: Coins, d: Coins, n: nat)
    requires c.IsAvailable(n) && c.nHeight >= 1
    requires SameCoins(c.Spent(n), d)
    ensures SameCoins(c, Restored(d, n, c.SpendUndo(n)))
    ensures RestoreClean(d, n, c.SpendUndo(n))
  {
    var undo := c.SpendUndo(n);
    SpentSlots(c, n);
    SameCoinsMeaning(c.Spent(n), d);
    RestoredSlots(d, n, undo);
    PrunedSlots(c.Spent(n));
    PrunedSlots(d);
    assert c.Spent(n).Slot(n) == d.Slot(n);
    forall m: nat
      ensures c.Slot(m) == Restored(d, n, undo).Slot(m)
    {
      assert c.Spent(n).Slot(m) == d.Slot(m);
    }
    SameCoinsMeaning(c, Restored(d, n, undo));
  }

  /** Why height 0 is excluded: the undo record of the last output of coins from height 0 is
      rejected, and of no others. */
  lemma CleanUnlessHeightZero(c: Coins, n: nat)
    requires c.IsAvailable(n)
    ensures RestoreClean(c.Spent(n), n, c.SpendUndo(n)) <==> (c.nHeight >= 1 || !c.Spent(n).IsPruned())
  {
    SpentSlots(c, n);
    assert c.Spent(n).Slot(n) == None;
  }
}
