/** The stack of coin views: a database at the bottom and write-back caches above it. */
module CoinsViews {
  import opened Transactions
  import opened Coins
  import opened BlockIndexes

  type View = map<Hash, Coins>

  function Entry(view: View, txid: Hash): Coins {
    if txid in view then view[txid] else NO_COINS
  }

  function Put(view: View, txid: Hash, coins: Coins): (r: View)
    ensures forall id: Hash {:trigger Entry(r, id)} :: Entry(r, id) == if id == txid then coins else Entry(view, id)
  {
    view[txid := coins]
  }

  /** Two views that hold the same unspent outputs, with the same metadata.  Absent, pruned and
      default entries are all the same. */
  ghost predicate SameView(a: View, b: View) {
    forall txid: Hash :: SameCoins(Entry(a, txid), Entry(b, txid))
  }

  /** `b` is `a` without some of its pruned entries. */
  ghost predicate DropsPruned(a: View, b: View) {
    && b.Keys <= a.Keys
    && (forall txid | txid in b :: b[txid] == a[txid])
    && (forall txid | txid in a && txid !in b :: a[txid].IsPruned())
  }

  lemma DroppingPrunedIsInvisible(a: View, b: View)
    requires DropsPruned(a, b)
    ensures SameView(a, b)
  {
    forall txid: Hash
      ensures SameCoins(Entry(a, txid), Entry(b, txid))
    {
      if txid in a && txid !in b {
        PrunedAreSame(a[txid], NO_COINS);
      }
    }
  }

  /** The coin database. */
  class CoinsViewDB {
    var coins: View
    var bestBlock: BlockIndex?

    constructor ()
      ensures coins == map[] && bestBlock == null
    {
      coins := map[];
      bestBlock := null;
    }

    method GetCoins(txid: Hash) returns (found: bool, c: Coins)
      ensures found == (txid in coins) && c == Entry(coins, txid)
    {
      found := txid in coins;
      c := if found then coins[txid] else NO_COINS;
    }

    /** Write a batch of entries; pruned ones are erased. */
    method BatchWrite(mapCoins: View, pindex: BlockIndex?)
      modifies this
      ensures DropsPruned(old(coins) + mapCoins, coins)
      ensures forall txid | txid in mapCoins && txid in coins :: !coins[txid].IsPruned()
      ensures bestBlock == if pindex != null then pindex else old(bestBlock)
    {
      var todo := mapCoins.Keys;
      while todo != {}
        invariant todo <= mapCoins.Keys
        invariant bestBlock == old(bestBlock)
        invariant DropsPruned(old(coins) + (mapCoins - todo), coins)
        invariant forall txid | txid in mapCoins && txid !in todo && txid in coins :: !coins[txid].IsPruned()
      {
        var txid :| txid in todo;
        coins := if mapCoins[txid].IsPruned() then coins - {txid} else coins[txid := mapCoins[txid]];
        todo := todo - {txid};
      }
      assert mapCoins - todo == mapCoins;
      if pindex != null {
        bestBlock := pindex;
      }
    }
  }

  class CoinsViewCache {
    var cacheCoins: View
    var pindexTip: BlockIndex?
    /** The view below; null when that is the database. */
    const base: CoinsViewCache?
    const db: CoinsViewDB
    ghost const depth: nat
    ghost const Repr: set<object>

    ghost predicate Valid()
      decreases depth
    {
      && this in Repr
      && db in Repr
      && (forall o | o in Repr :: o is CoinsViewCache || o is CoinsViewDB)
      && (base != null ==>
        && base.depth < depth
        && base.db == db
        && base.Repr <= Repr
        && this !in base.Repr
        && base.Valid())
    }

    lemma OwnsOnlyViews(o: object)
      requires Valid() && !(o is CoinsViewCache) && !(o is CoinsViewDB)
      ensures o !in Repr
    {
    }

    /** What each level below shows, the database last. */
    ghost function Below(): (levels: seq<View>)
      requires Valid()
      reads Repr
      ensures |levels| >= 1
      decreases depth, 0
    {
      if base == null then [db.coins] else [base.Visible()] + base.Below()
    }

    ghost function Visible(): View
      requires Valid()
      reads Repr
      decreases depth, 1
    {
      Below()[0] + cacheCoins
    }

    /** The best block each level below reports. */
    ghost function BelowTips(): (tips: seq<BlockIndex?>)
      requires Valid()
      reads Repr
      ensures |tips| >= 1
      decreases depth, 0
    {
      if base == null then [db.bestBlock] else [base.Tip()] + base.BelowTips()
    }

    /** Everything the levels below show. */
    ghost function Beneath(): (seq<View>, seq<BlockIndex?>)
      requires Valid()
      reads Repr
    {
      (Below(), BelowTips())
    }

    lemma BeneathIsBase()
      requires Valid() && base != null
      ensures Beneath().0[0] == base.Visible() && Beneath().1[0] == base.Tip()
      ensures base.Beneath() == (Beneath().0[1..], Beneath().1[1..])
    {
    }

    ghost function Tip(): BlockIndex?
      requires Valid()
      reads Repr
      decreases depth, 1
    {
      if pindexTip != null then pindexTip else BelowTips()[0]
    }

    constructor (db: CoinsViewDB)
      ensures Valid() && base == null && this.db == db && fresh(Repr - {db}) && Repr == {this, db}
      ensures cacheCoins == map[] && pindexTip == null
    {
      this.db := db;
      base := null;
      depth := 0;
      Repr := {this, db};
      cacheCoins := map[];
      pindexTip := null;
    }

    constructor Over(base: CoinsViewCache)
      requires base.Valid()
      ensures Valid() && this.base == base && fresh(Repr - base.Repr) && Repr == base.Repr + {this}
      ensures cacheCoins == map[] && pindexTip == null
    {
      this.base := base;
      db := base.db;
      depth := base.depth + 1;
      Repr := base.Repr + {this};
      cacheCoins := map[];
      pindexTip := null;
    }

    /** Look an entry up, remembering it here and in every cache passed on the way down. */
    method GetCoins(txid: Hash) returns (found: bool, coins: Coins)
      requires Valid()
      modifies Repr
      decreases depth
      ensures Visible() == old(Visible()) && Tip() == old(Tip()) && pindexTip == old(pindexTip)
      ensures Beneath() == old(Beneath())
      ensures found == (txid in Visible()) && coins == Entry(Visible(), txid)
      ensures found ==> txid in cacheCoins
    {
      if txid in cacheCoins {
        return true, cacheCoins[txid];
      }
      if base == null {
        found, coins := db.GetCoins(txid);
      } else {
        found, coins := base.GetCoins(txid);
      }
      if found {
        assert Below()[0] + cacheCoins[txid := coins] == Below()[0] + cacheCoins;
        cacheCoins := cacheCoins[txid := coins];
      }
    }

    method HaveCoins(txid: Hash) returns (found: bool)
      requires Valid()
      modifies Repr
      ensures Visible() == old(Visible()) && Tip() == old(Tip()) && pindexTip == old(pindexTip)
      ensures Beneath() == old(Beneath())
      ensures found == (txid in Visible())
      ensures found ==> txid in cacheCoins
    {
      var coins;
      found, coins := GetCoins(txid);
    }

    method SetCoins(txid: Hash, coins: Coins)
      requires Valid()
      modifies this
      ensures Visible() == old(Visible())[txid := coins] && Tip() == old(Tip()) && pindexTip == old(pindexTip)
      ensures Beneath() == old(Beneath())
    {
      assert Below()[0] + cacheCoins[txid := coins] == (Below()[0] + cacheCoins)[txid := coins];
      cacheCoins := cacheCoins[txid := coins];
    }

    method GetBestBlock() returns (pindex: BlockIndex?)
      requires Valid()
      modifies Repr
      decreases depth
      ensures Visible() == old(Visible()) && Tip() == old(Tip())
      ensures Beneath() == old(Beneath())
      ensures pindex == Tip() == pindexTip
    {
      if pindexTip == null {
        if base == null {
          pindexTip := db.bestBlock;
        } else {
          pindexTip := base.GetBestBlock();
        }
      }
      pindex := pindexTip;
    }

    method SetBestBlock(pindex: BlockIndex)
      requires Valid()
      modifies this
      ensures Visible() == old(Visible()) && Tip() == pindexTip == pindex
      ensures Beneath() == old(Beneath())
    {
      pindexTip := pindex;
    }

    method BatchWrite(mapCoins: View, pindex: BlockIndex)
      requires Valid()
      modifies this
      ensures Visible() == old(Visible()) + mapCoins && Tip() == pindexTip == pindex
      ensures Beneath() == old(Beneath())
    {
      var todo := mapCoins.Keys;
      while todo != {}
        invariant todo <= mapCoins.Keys
        invariant cacheCoins == old(cacheCoins) + (mapCoins - todo)
      {
        var txid :| txid in todo;
        cacheCoins := cacheCoins[txid := mapCoins[txid]];
        todo := todo - {txid};
      }
      assert mapCoins - todo == mapCoins;
      pindexTip := pindex;
      assert Below()[0] + (old(cacheCoins) + mapCoins) == (Below()[0] + old(cacheCoins)) + mapCoins;
    }

    /** Push the modifications to the view below.  Its tip pointer is overwritten as well, so the
        tip must have been read here first. */
    method Flush()
      requires Valid() && pindexTip != null
      modifies Repr
      ensures Tip() == old(Tip()) && pindexTip == old(pindexTip) && cacheCoins == map[]
      ensures Visible() == Below()[0] && BelowTips() == old([Tip()] + BelowTips()[1..])
      ensures base != null ==> Visible() == old(Visible()) && Below() == old([Visible()] + Below()[1..])
      ensures base != null ==> base.pindexTip == pindexTip
      ensures base == null ==> DropsPruned(old(Visible()), Visible())
    {
      if base == null {
        db.BatchWrite(cacheCoins, pindexTip);
      } else {
        base.BatchWrite(cacheCoins, pindexTip);
      }
      cacheCoins := map[];
      assert Below()[0] + cacheCoins == Below()[0];
    }
  }
}
