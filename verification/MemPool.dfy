/** The memory pool: pending transactions, and who spends which output. */
module MemPools {
  import opened Transactions

  /** Input `n` of the pool's transaction `txid`. */
  datatype InPoint = InPoint(txid: Hash, n: nat)

  type Pool = map<Hash, Transaction>
  type NextTx = map<OutPoint, InPoint>

  /** The program's `==` on transactions, which does not look at attachments. */
  predicate TxEquals(a: Transaction, b: Transaction) {
    a.nVersion == b.nVersion && a.vin == b.vin && TxOutsEqual(a.vout, b.vout) && a.nLockTime == b.nLockTime
  }

  /** Transactions that differ only in their attachments, and so in their hashes, compare equal. */
  lemma AttachmentsAreNotCompared(tx: Transaction, hash: Hash, attachments: Script)
    ensures TxEquals(tx, tx.(hash := hash, attachments := attachments))
  {
    TxOutsEqualReflexive(tx.vout);
  }

  // ---------------------------------------------------------------- the two indexes

  /** Every input of every transaction is listed under the output it spends. */
  predicate Listed(pool: Pool, next: NextTx) {
    && (forall h | h in pool :: pool[h].hash == h)
    && (forall h, i | h in pool && 0 <= i < |pool[h].vin| ::
          pool[h].vin[i].prevout in next && next[pool[h].vin[i].prevout] == InPoint(h, i))
  }

  /** Nothing else is listed. */
  predicate OnlyListed(pool: Pool, next: NextTx) {
    forall out | out in next ::
      next[out].txid in pool && next[out].n < |pool[next[out].txid].vin| &&
        pool[next[out].txid].vin[next[out].n].prevout == out
  }

  predicate Consistent(pool: Pool, next: NextTx) {
    Listed(pool, next) && OnlyListed(pool, next)
  }

  /** References go from lower to higher ranks, so there is no circle of transactions. */
  ghost predicate Ranked(pool: Pool, rank: Hash -> nat) {
    forall h, i | h in pool && 0 <= i < |pool[h].vin| :: rank(h) < rank(pool[h].vin[i].prevout.hash)
  }

  // ---------------------------------------------------------------- descendants

  /** How many outputs a transaction has, where `root` may be outside the pool. */
  function OutCount(pool: Pool, root: Transaction, h: Hash): nat {
    if h == root.hash then |root.vout| else if h in pool then |pool[h].vout| else 0
  }

  /** The pool's transaction `child` spends an output of `parent`. */
  predicate Spends(pool: Pool, root: Transaction, parent: Hash, child: Hash) {
    child in pool && exists i | 0 <= i < |pool[child].vin| ::
      pool[child].vin[i].prevout.hash == parent && pool[child].vin[i].prevout.n < OutCount(pool, root, parent)
  }

  predicate Chain(pool: Pool, root: Transaction, path: seq<Hash>) {
    && |path| > 0 && path[0] == root.hash
    && forall k | 0 <= k < |path| - 1 :: Spends(pool, root, path[k], path[k + 1])
  }

  /** `h` is `root` itself or spends, directly or not, one of its outputs. */
  ghost predicate Descends(pool: Pool, root: Transaction, h: Hash) {
    exists path :: Chain(pool, root, path) && path[|path| - 1] == h
  }

  /** `root` and its descendants, as far as they are in the pool. */
  ghost function Descendants(pool: Pool, root: Transaction): set<Hash> {
    set h | h in pool && Descends(pool, root, h)
  }

  /** No transaction left in the pool spends an output of one of the removed ones. */
  ghost predicate Closed(pool: Pool, root: Transaction, removed: set<Hash>) {
    forall p, c | p in removed && c in pool && c !in removed :: !Spends(pool, root, p, c)
  }

  lemma RootDescends(pool: Pool, root: Transaction)
    ensures Descends(pool, root, root.hash)
  {
    assert Chain(pool, root, [root.hash]);
  }

  /** A closed set with the root in it holds all descendants. */
  lemma {:induction false} ClosedHoldsChain(pool: Pool, root: Transaction, removed: set<Hash>, path: seq<Hash>)
    requires Closed(pool, root, removed) && root.hash in removed && Chain(pool, root, path)
    ensures path[|path| - 1] in removed
    decreases |path|
  {
    if |path| > 1 {
      var shorter := path[..|path| - 1];
      assert Chain(pool, root, shorter);
      ClosedHoldsChain(pool, root, removed, shorter);
      assert Spends(pool, root, path[|path| - 2], path[|path| - 1]);
    }
  }

  /** Removing a closed set of descendants that the root belongs to removes exactly the descendants. */
  lemma ExactlyDescendants(pool: Pool, root: Transaction, removed: set<Hash>)
    requires Closed(pool, root, removed) && root.hash in removed
    requires forall h | h in removed :: Descends(pool, root, h)
    ensures forall h | h in pool :: h in removed <==> h in Descendants(pool, root)
  {
    forall h | h in pool && Descends(pool, root, h)
      ensures h in removed
    {
      var path :| Chain(pool, root, path) && path[|path| - 1] == h;
      ClosedHoldsChain(pool, root, removed, path);
    }
  }

  predicate SubPool(small: Pool, pool: Pool) {
    forall h | h in small :: h in pool && small[h] == pool[h]
  }

  /** The pool's own copy of a transaction with this hash is that transaction. */
  predicate IsOwn(pool: Pool, tx: Transaction) {
    tx.hash in pool ==> pool[tx.hash] == tx
  }

  /** A chain below a child in a smaller pool extends to one below the root. */
  lemma ChainFromChild(small: Pool, pool: Pool, root: Transaction, child: Hash, path: seq<Hash>)
    requires SubPool(small, pool) && IsOwn(pool, root) && child in small && small[child].hash == child
    requires Spends(pool, root, root.hash, child) && Chain(small, small[child], path)
    ensures Chain(pool, root, [root.hash] + path)
  {
    var longer := [root.hash] + path;
    forall k | 0 <= k < |longer| - 1
      ensures Spends(pool, root, longer[k], longer[k + 1])
    {
      if k > 0 {
        assert Spends(small, small[child], path[k - 1], path[k]);
        SpendsInLarger(small, pool, root, child, path[k - 1], path[k]);
      }
    }
  }

  lemma SpendsInLarger(small: Pool, pool: Pool, root: Transaction, top: Hash, p: Hash, c: Hash)
    requires SubPool(small, pool) && IsOwn(pool, root) && top in small && small[top].hash == top
    requires Spends(small, small[top], p, c)
    ensures Spends(pool, root, p, c)
  {
  }

  lemma DescendsFromChild(small: Pool, pool: Pool, root: Transaction, child: Hash, h: Hash)
    requires SubPool(small, pool) && IsOwn(pool, root) && child in small && small[child].hash == child
    requires Spends(pool, root, root.hash, child) && Descends(small, small[child], h)
    ensures Descends(pool, root, h)
  {
    var path :| Chain(small, small[child], path) && path[|path| - 1] == h;
    ChainFromChild(small, pool, root, child, path);
    assert ([root.hash] + path)[|path|] == h;
  }

  /** What spends an output of a descendant is a descendant. */
  lemma SpenderDescends(pool: Pool, root: Transaction, p: Hash, c: Hash)
    requires Descends(pool, root, p) && Spends(pool, root, p, c)
    ensures Descends(pool, root, c)
  {
    var path :| Chain(pool, root, path) && path[|path| - 1] == p;
    assert Chain(pool, root, path + [c]);
    assert (path + [c])[|path|] == c;
  }

  // ---------------------------------------------------------------- removal step by step

  function Outputs(tx: Transaction, k: nat): set<OutPoint>
    requires k <= |tx.vin|
  {
    set i | 0 <= i < k :: tx.vin[i].prevout
  }

  /** Erasing a transaction together with what its inputs list keeps the indexes inverse. */
  lemma EraseKeeps(pool: Pool, next: NextTx, tx: Transaction)
    requires Consistent(pool, next) && tx.hash in pool && pool[tx.hash] == tx
    ensures Consistent(pool - {tx.hash}, next - Outputs(tx, |tx.vin|))
  {
  }

  /** While a transaction's outputs up to `k` are looked at: what is gone descends from it, what
      remains spends nothing that is gone and none of these outputs. */
  ghost predicate Partial(before: Pool, now: Pool, tx: Transaction, k: nat) {
    && SubPool(now, before)
    && (forall h | h in before && h !in now :: Descends(before, tx, h))
    && (forall p, c | p in before && p !in now && c in now :: !Spends(before, tx, p, c))
    && (forall c, i | c in now && 0 <= i < |now[c].vin| ::
          !(now[c].vin[i].prevout.hash == tx.hash && now[c].vin[i].prevout.n < k))
  }

  lemma PartialStarts(pool: Pool, tx: Transaction)
    ensures Partial(pool, pool, tx, 0)
  {
  }

  /** Nobody spends output `k`. */
  lemma PartialSkips(before: Pool, now: Pool, next: NextTx, tx: Transaction, k: nat)
    requires Partial(before, now, tx, k) && Consistent(now, next) && OutPoint(tx.hash, k) !in next
    ensures Partial(before, now, tx, k + 1)
  {
    forall c, i | c in now && 0 <= i < |now[c].vin|
      ensures !(now[c].vin[i].prevout.hash == tx.hash && now[c].vin[i].prevout.n < k + 1)
    {
      assert now[c].vin[i].prevout in next;
    }
  }

  /** The spender of output `k` goes, with its descendants. */
  lemma PartialGrows(before: Pool, now: Pool, next: NextTx, tx: Transaction, k: nat, after: Pool)
    requires Partial(before, now, tx, k) && Consistent(now, next) && HashesMatch(before) && IsOwn(before, tx)
    requires k < |tx.vout| && OutPoint(tx.hash, k) in next
    requires after == now - Descendants(now, now[next[OutPoint(tx.hash, k)].txid])
    ensures Partial(before, after, tx, k + 1)
  {
    var point := next[OutPoint(tx.hash, k)];
    var child := now[point.txid];
    assert child.vin[point.n].prevout == OutPoint(tx.hash, k);
    assert Spends(before, tx, tx.hash, child.hash);
    forall h | h in before && h !in after
      ensures Descends(before, tx, h)
    {
      if h in now {
        DescendsFromChild(now, before, tx, child.hash, h);
      }
    }
    forall p, c | p in before && p !in after && c in after
      ensures !Spends(before, tx, p, c)
    {
      if p in now && Spends(before, tx, p, c) {
        assert Spends(now, child, p, c);
        SpenderDescends(now, child, p, c);
      }
    }
    RootDescends(now, child);
    forall c, i | c in after && 0 <= i < |after[c].vin|
      ensures !(after[c].vin[i].prevout.hash == tx.hash && after[c].vin[i].prevout.n < k + 1)
    {
      assert next[now[c].vin[i].prevout] == InPoint(c, i);
    }
  }

  function Size(pool: Pool): nat {
    |pool|
  }

  lemma OneFewer(pool: Pool, h: Hash)
    requires h in pool
    ensures Size(pool - {h}) == Size(pool) - 1
  {
    assert (pool - {h}).Keys == pool.Keys - {h};
    assert |pool.Keys - {h}| == |pool.Keys| - 1;
    assert |pool| == |pool.Keys| && |pool - {h}| == |(pool - {h}).Keys|;
  }

  predicate HashesMatch(pool: Pool) {
    forall h | h in pool :: pool[h].hash == h
  }

  /** After all outputs only the descendants are gone, and the transaction itself is next. */
  lemma PartialEnds(before: Pool, now: Pool, tx: Transaction)
    requires Partial(before, now, tx, |tx.vout|) && IsOwn(before, tx)
    ensures now - {tx.hash} == before - Descendants(before, tx)
  {
    var removed := (before.Keys - now.Keys) + {tx.hash};
    RootDescends(before, tx);
    forall p, c | p in removed && c in before && c !in removed
      ensures !Spends(before, tx, p, c)
    {
    }
    ExactlyDescendants(before, tx, removed);
  }

  class MemPool {
    var mapTx: Pool
    var mapNextTx: NextTx
    var nTransactionsUpdated: nat

    ghost predicate Valid()
      reads this
    {
      Consistent(mapTx, mapNextTx)
    }

    constructor ()
      ensures Valid() && mapTx == map[]
    {
      mapTx, mapNextTx, nTransactionsUpdated := map[], map[], 0;
    }

    method Remove(tx: Transaction, fRecursive: bool, ghost rank: Hash -> nat)
      requires Valid() && IsOwn(mapTx, tx) && Ranked(mapTx, rank)
      modifies this
      ensures Valid()
      ensures mapTx == if fRecursive then old(mapTx) - Descendants(old(mapTx), tx) else old(mapTx) - {tx.hash}
      ensures nTransactionsUpdated + Size(mapTx) == old(nTransactionsUpdated + Size(mapTx))
      decreases rank(tx.hash)
    {
      hide Partial, Consistent, Ranked, Descendants, Outputs, HashesMatch, Size;
      ghost var before := mapTx;
      OwnHashes(mapTx, mapNextTx);
      if fRecursive {
        PartialStarts(mapTx, tx);
        for i := 0 to |tx.vout|
          invariant Valid() && Partial(before, mapTx, tx, i) && Ranked(mapTx, rank)
          invariant nTransactionsUpdated + Size(mapTx) == old(nTransactionsUpdated + Size(mapTx))
        {
          if OutPoint(tx.hash, i) in mapNextTx {
            ghost var now, next := mapTx, mapNextTx;
            Spender(mapTx, mapNextTx, OutPoint(tx.hash, i), rank);
            var child := mapTx[mapNextTx[OutPoint(tx.hash, i)].txid];
            Remove(child, true, rank);
            PartialGrows(before, now, next, tx, i, mapTx);
            RankedSubset(now, mapTx, rank);
          } else {
            PartialSkips(before, mapTx, mapNextTx, tx, i);
          }
        }
        PartialEnds(before, mapTx, tx);
        PartialOwn(before, mapTx, tx, |tx.vout|);
      }
      if tx.hash in mapTx {
        EraseKeeps(mapTx, mapNextTx, tx);
        OneFewer(mapTx, tx.hash);
        EraseInputs(tx);
        mapTx := mapTx - {tx.hash};
        nTransactionsUpdated := nTransactionsUpdated + 1;
      } else {
        assert mapTx - {tx.hash} == mapTx;
      }
    }

    method EraseInputs(tx: Transaction)
      modifies this`mapNextTx
      ensures mapNextTx == old(mapNextTx) - Outputs(tx, |tx.vin|)
    {
      for i := 0 to |tx.vin|
        invariant mapNextTx == old(mapNextTx) - Outputs(tx, i)
      {
        assert Outputs(tx, i + 1) == Outputs(tx, i) + {tx.vin[i].prevout};
        mapNextTx := mapNextTx - {tx.vin[i].prevout};
      }
    }

    method AddUnchecked(hash: Hash, tx: Transaction)
      requires tx.hash == hash
      modifies this
      ensures mapTx == old(mapTx)[hash := tx]
      ensures mapNextTx == Entered(old(mapNextTx), hash, tx, |tx.vin|)
      ensures nTransactionsUpdated == old(nTransactionsUpdated) + 1
      ensures old(Valid()) ==> (Valid() <==> Fits(old(mapTx), old(mapNextTx), tx))
    {
      hide Consistent, Fits, Entered;
      mapTx := mapTx[hash := tx];
      EnterNothing(mapNextTx, hash, tx);
      for i := 0 to |tx.vin|
        invariant mapTx == old(mapTx)[hash := tx] && nTransactionsUpdated == old(nTransactionsUpdated)
        invariant mapNextTx == Entered(old(mapNextTx), hash, tx, i)
      {
        EnterOne(old(mapNextTx), hash, tx, i);
        mapNextTx := mapNextTx[tx.vin[i].prevout := InPoint(hash, i)];
      }
      nTransactionsUpdated := nTransactionsUpdated + 1;
      if Consistent(old(mapTx), old(mapNextTx)) {
        AddKeepsIff(old(mapTx), old(mapNextTx), tx);
      }
    }

    /** Removes what spends the same outputs as a connected transaction, unless it compares equal,
        with all its descendants. */
    method RemoveConflicts(tx: Transaction, ghost rank: Hash -> nat)
      requires Valid() && Ranked(mapTx, rank)
      modifies this
      ensures Valid() && SubPool(mapTx, old(mapTx))
      ensures NoConflict(mapTx, tx, |tx.vin|)
      ensures CausedBy(old(mapTx), mapTx, tx)
      ensures NoOrphans(old(mapTx), mapTx)
      ensures nTransactionsUpdated + Size(mapTx) == old(nTransactionsUpdated + Size(mapTx))
    {
      hide Consistent, Ranked, NoConflict, CausedBy, NoOrphans, SubPool, Descendants, HashesMatch, Size;
      NothingRemoved(mapTx, tx);
      OwnHashes(mapTx, mapNextTx);
      for i := 0 to |tx.vin|
        invariant Valid() && SubPool(mapTx, old(mapTx)) && Ranked(mapTx, rank)
        invariant NoConflict(mapTx, tx, i) && CausedBy(old(mapTx), mapTx, tx) && NoOrphans(old(mapTx), mapTx)
        invariant nTransactionsUpdated + Size(mapTx) == old(nTransactionsUpdated + Size(mapTx))
      {
        ghost var now, next := mapTx, mapNextTx;
        if tx.vin[i].prevout in mapNextTx {
          Spender(mapTx, mapNextTx, tx.vin[i].prevout, rank);
          var txConflict := mapTx[mapNextTx[tx.vin[i].prevout].txid];
          if !TxEquals(txConflict, tx) {
            Remove(txConflict, true, rank);
            ConflictGone(old(mapTx), now, next, mapTx, tx, i);
            RankedSubset(now, mapTx, rank);
          } else {
            ConflictEqual(now, next, tx, i);
          }
        } else {
          ConflictAbsent(now, next, tx, i);
        }
      }
    }

    /** The end of a switch of branches: for every transaction of the connected blocks. */
    method DeleteConnected(vDelete: seq<Transaction>, ghost rank: Hash -> nat)
      requires Valid() && Ranked(mapTx, rank) && forall tx | tx in vDelete :: IsOwn(mapTx, tx)
      modifies this
      ensures Valid() && SubPool(mapTx, old(mapTx))
      ensures forall tx | tx in vDelete :: tx.hash !in mapTx && NoConflict(mapTx, tx, |tx.vin|)
      ensures GoneForAny(old(mapTx), mapTx, vDelete)
      ensures nTransactionsUpdated + Size(mapTx) == old(nTransactionsUpdated + Size(mapTx))
    {
      hide Consistent, Ranked, NoConflict, CausedBy, NoOrphans, GoneForAny, Size;
      NothingGone(mapTx);
      for i := 0 to |vDelete|
        invariant Valid() && SubPool(mapTx, old(mapTx)) && Ranked(mapTx, rank)
        invariant forall tx | tx in vDelete[..i] :: tx.hash !in mapTx && NoConflict(mapTx, tx, |tx.vin|)
        invariant forall tx | tx in vDelete :: IsOwn(mapTx, tx)
        invariant GoneForAny(old(mapTx), mapTx, vDelete[..i])
        invariant nTransactionsUpdated + Size(mapTx) == old(nTransactionsUpdated + Size(mapTx))
      {
        ghost var now := mapTx;
        var tx := vDelete[i];
        assert tx in vDelete;
        OwnHashes(old(mapTx), old(mapNextTx));
        Remove(tx, false, rank);
        RankedSubset(now, mapTx, rank);
        ghost var without := mapTx;
        RemoveConflicts(tx, rank);
        RankedSubset(now, mapTx, rank);
        GoneForOneMore(old(mapTx), now, without, mapTx, vDelete[..i], tx);
        forall t | t in vDelete[..i]
          ensures NoConflict(mapTx, t, |t.vin|)
        {
          NoConflictShrinks(now, mapTx, t, |t.vin|);
        }
        assert vDelete[..i + 1] == vDelete[..i] + [tx];
      }
      assert vDelete[..|vDelete|] == vDelete;
    }
  }

  // ---------------------------------------------------------------- adding

  /** mapNextTx with the first `k` inputs of a transaction entered, later ones over earlier ones. */
  function Entered(next: NextTx, hash: Hash, tx: Transaction, k: nat): NextTx
    requires k <= |tx.vin|
  {
    if k == 0 then next else Entered(next, hash, tx, k - 1)[tx.vin[k - 1].prevout := InPoint(hash, k - 1)]
  }

  lemma EnterNothing(next: NextTx, hash: Hash, tx: Transaction)
    ensures Entered(next, hash, tx, 0) == next
  {
  }

  lemma EnterOne(next: NextTx, hash: Hash, tx: Transaction, k: nat)
    requires k < |tx.vin|
    ensures Entered(next, hash, tx, k + 1) == Entered(next, hash, tx, k)[tx.vin[k].prevout := InPoint(hash, k)]
  {
  }

  /** What accept checks before it adds: no output is spent twice, by the transaction itself or by
      another one in the pool; a previous transaction of the same hash spends nothing else. */
  predicate Fits(pool: Pool, next: NextTx, tx: Transaction) {
    && (forall i, j | 0 <= i < j < |tx.vin| :: tx.vin[i].prevout != tx.vin[j].prevout)
    && (forall i | 0 <= i < |tx.vin| :: tx.vin[i].prevout in next ==> next[tx.vin[i].prevout].txid == tx.hash)
    && (tx.hash in pool ==>
      forall i | 0 <= i < |pool[tx.hash].vin| :: pool[tx.hash].vin[i].prevout in Outputs(tx, |tx.vin|))
  }

  lemma {:induction false} EnteredIs(next: NextTx, hash: Hash, tx: Transaction, k: nat)
    requires k <= |tx.vin|
    ensures forall out :: out in Entered(next, hash, tx, k) <==> out in next || out in Outputs(tx, k)
    ensures forall out | out in next && out !in Outputs(tx, k) :: Entered(next, hash, tx, k)[out] == next[out]
    decreases k
  {
    if k > 0 {
      EnteredIs(next, hash, tx, k - 1);
      EnterOne(next, hash, tx, k - 1);
      assert Outputs(tx, k) == Outputs(tx, k - 1) + {tx.vin[k - 1].prevout};
      hide Outputs, Entered;
    }
  }

  lemma {:induction false} EnteredInOrder(next: NextTx, hash: Hash, tx: Transaction, k: nat)
    requires k <= |tx.vin| && forall i, j | 0 <= i < j < |tx.vin| :: tx.vin[i].prevout != tx.vin[j].prevout
    ensures forall i | 0 <= i < k ::
      tx.vin[i].prevout in Entered(next, hash, tx, k) &&
        Entered(next, hash, tx, k)[tx.vin[i].prevout] == InPoint(hash, i)
    decreases k
  {
    if k > 0 {
      EnteredInOrder(next, hash, tx, k - 1);
      EnterOne(next, hash, tx, k - 1);
    }
    hide Entered;
  }

  /** Adding keeps the indexes inverse exactly when the transaction fits. */
  lemma AddKeepsIff(pool: Pool, next: NextTx, tx: Transaction)
    requires Consistent(pool, next)
    ensures Consistent(pool[tx.hash := tx], Entered(next, tx.hash, tx, |tx.vin|)) <==> Fits(pool, next, tx)
  {
    var next' := Entered(next, tx.hash, tx, |tx.vin|);
    EnteredIs(next, tx.hash, tx, |tx.vin|);
    hide Entered;
    if Fits(pool, next, tx) {
      EnteredInOrder(next, tx.hash, tx, |tx.vin|);
      FittingKeeps(pool, next, next', tx);
    }
    if Consistent(pool[tx.hash := tx], next') {
      KeptFits(pool, next, next', tx);
    }
  }

  lemma FittingKeeps(pool: Pool, next: NextTx, next': NextTx, tx: Transaction)
    requires Consistent(pool, next) && Fits(pool, next, tx)
    requires forall out :: out in next' <==> out in next || out in Outputs(tx, |tx.vin|)
    requires forall out | out in next && out !in Outputs(tx, |tx.vin|) :: next'[out] == next[out]
    requires forall i | 0 <= i < |tx.vin| ::
      tx.vin[i].prevout in next' && next'[tx.vin[i].prevout] == InPoint(tx.hash, i)
    ensures Consistent(pool[tx.hash := tx], next')
  {
    var pool' := pool[tx.hash := tx];
    forall h, i | h in pool' && 0 <= i < |pool'[h].vin|
      ensures pool'[h].vin[i].prevout in next' && next'[pool'[h].vin[i].prevout] == InPoint(h, i)
    {
      if h != tx.hash {
        assert next[pool[h].vin[i].prevout] == InPoint(h, i);
      }
    }
  }

  lemma KeptFits(pool: Pool, next: NextTx, next': NextTx, tx: Transaction)
    requires Consistent(pool, next) && Consistent(pool[tx.hash := tx], next')
    requires forall out :: out in next' <==> out in next || out in Outputs(tx, |tx.vin|)
    requires forall out | out in next && out !in Outputs(tx, |tx.vin|) :: next'[out] == next[out]
    ensures Fits(pool, next, tx)
  {
    hide Consistent;
    var pool' := pool[tx.hash := tx];
    forall i | 0 <= i < |tx.vin|
      ensures tx.vin[i].prevout in next' && next'[tx.vin[i].prevout] == InPoint(tx.hash, i)
    {
      ListedAt(pool', next', tx.hash, i);
    }
    forall i | 0 <= i < |tx.vin| && tx.vin[i].prevout in next
      ensures next[tx.vin[i].prevout].txid == tx.hash
    {
      OnlyListedAt(pool, next, tx.vin[i].prevout);
      var p := next[tx.vin[i].prevout];
      if p.txid != tx.hash {
        ListedAt(pool', next', p.txid, p.n);
      }
    }
    if tx.hash in pool {
      forall i | 0 <= i < |pool[tx.hash].vin|
        ensures pool[tx.hash].vin[i].prevout in Outputs(tx, |tx.vin|)
      {
        var out := pool[tx.hash].vin[i].prevout;
        ListedAt(pool, next, tx.hash, i);
        OnlyListedAt(pool', next', out);
      }
    }
  }

  lemma ListedAt(pool: Pool, next: NextTx, h: Hash, n: nat)
    requires Consistent(pool, next) && h in pool && n < |pool[h].vin|
    ensures pool[h].vin[n].prevout in next && next[pool[h].vin[n].prevout] == InPoint(h, n)
  {
  }

  lemma OnlyListedAt(pool: Pool, next: NextTx, out: OutPoint)
    requires Consistent(pool, next) && out in next
    ensures next[out].txid in pool && next[out].n < |pool[next[out].txid].vin|
    ensures pool[next[out].txid].vin[next[out].n].prevout == out
  {
  }

  // ---------------------------------------------------------------- conflicts

  predicate SpendsInput(other: Transaction, tx: Transaction, k: nat)
    requires k <= |tx.vin|
  {
    exists j | 0 <= j < |other.vin| :: other.vin[j].prevout in Outputs(tx, k)
  }

  /** Whoever still spends one of the first `k` inputs compares equal. */
  predicate NoConflict(pool: Pool, tx: Transaction, k: nat)
    requires k <= |tx.vin|
  {
    forall h | h in pool :: SpendsInput(pool[h], tx, k) ==> TxEquals(pool[h], tx)
  }

  predicate IsConflict(pool: Pool, tx: Transaction, c: Hash) {
    c in pool && SpendsInput(pool[c], tx, |tx.vin|) && !TxEquals(pool[c], tx)
  }

  /** Whatever is gone is a conflicting transaction or a descendant of one. */
  ghost predicate CausedBy(before: Pool, now: Pool, tx: Transaction) {
    forall h | h in before && h !in now :: exists c :: IsConflict(before, tx, c) && Descends(before, before[c], h)
  }

  /** Nothing that remains spends an output of something that is gone. */
  ghost predicate NoOrphans(before: Pool, now: Pool) {
    forall p, c | p in before && p !in now && c in now :: !Spends(before, before[p], p, c)
  }

  /** It is the connected transaction itself, or a conflicting one or a descendant of one. */
  ghost predicate GoneFor(before: Pool, tx: Transaction, h: Hash) {
    tx.hash == h || exists c :: IsConflict(before, tx, c) && Descends(before, before[c], h)
  }

  /** Whatever is gone is gone for one of these transactions. */
  ghost predicate GoneForAny(before: Pool, now: Pool, txs: seq<Transaction>) {
    forall h | h in before && h !in now :: exists i :: 0 <= i < |txs| && GoneFor(before, txs[i], h)
  }

  lemma NothingGone(pool: Pool)
    ensures GoneForAny(pool, pool, [])
  {
  }

  lemma GoneForOneMore(before: Pool, now: Pool, without: Pool, after: Pool, txs: seq<Transaction>, tx: Transaction)
    requires HashesMatch(before) && SubPool(now, before) && GoneForAny(before, now, txs)
    requires without == now - {tx.hash} && SubPool(after, without) && CausedBy(without, after, tx)
    ensures GoneForAny(before, after, txs + [tx])
  {
    var more := txs + [tx];
    hide Descends, TxEquals, SpendsInput;
    forall h | h in before && h !in after
      ensures exists i :: 0 <= i < |more| && GoneFor(before, more[i], h)
    {
      if h !in now {
        var i :| 0 <= i < |txs| && GoneFor(before, txs[i], h);
        assert more[i] == txs[i];
      } else {
        assert more[|txs|] == tx;
        if h != tx.hash {
          var c :| IsConflict(without, tx, c) && Descends(without, without[c], h);
          StillConflict(without, before, tx, c);
          DescendsInLarger(without, before, without[c], h);
        }
      }
    }
  }

  lemma StillConflict(small: Pool, pool: Pool, tx: Transaction, c: Hash)
    requires SubPool(small, pool) && IsConflict(small, tx, c)
    ensures IsConflict(pool, tx, c) && c in small && pool[c] == small[c]
  {
  }

  lemma NothingRemoved(pool: Pool, tx: Transaction)
    ensures SubPool(pool, pool) && NoConflict(pool, tx, 0) && CausedBy(pool, pool, tx) && NoOrphans(pool, pool)
  {
  }

  lemma NoConflictShrinks(before: Pool, now: Pool, tx: Transaction, k: nat)
    requires k <= |tx.vin| && NoConflict(before, tx, k) && SubPool(now, before)
    ensures NoConflict(now, tx, k)
  {
  }

  lemma ConflictAbsent(pool: Pool, next: NextTx, tx: Transaction, i: nat)
    requires i < |tx.vin| && NoConflict(pool, tx, i) && Consistent(pool, next) && tx.vin[i].prevout !in next
    ensures NoConflict(pool, tx, i + 1)
  {
    forall h | h in pool && SpendsInput(pool[h], tx, i + 1)
      ensures SpendsInput(pool[h], tx, i)
    {
      var j :| 0 <= j < |pool[h].vin| && pool[h].vin[j].prevout in Outputs(tx, i + 1);
      assert pool[h].vin[j].prevout in next;
    }
  }

  lemma ConflictEqual(pool: Pool, next: NextTx, tx: Transaction, i: nat)
    requires i < |tx.vin| && NoConflict(pool, tx, i) && Consistent(pool, next) && tx.vin[i].prevout in next
    requires next[tx.vin[i].prevout].txid in pool && TxEquals(pool[next[tx.vin[i].prevout].txid], tx)
    ensures NoConflict(pool, tx, i + 1)
  {
    forall h | h in pool && SpendsInput(pool[h], tx, i + 1)
      ensures TxEquals(pool[h], tx)
    {
      var j :| 0 <= j < |pool[h].vin| && pool[h].vin[j].prevout in Outputs(tx, i + 1);
      assert next[pool[h].vin[j].prevout] == InPoint(h, j);
      if pool[h].vin[j].prevout != tx.vin[i].prevout {
        assert pool[h].vin[j].prevout in Outputs(tx, i);
      }
    }
  }

  lemma ConflictGone(before: Pool, now: Pool, next: NextTx, after: Pool, tx: Transaction, i: nat)
    requires i < |tx.vin| && Consistent(now, next) && tx.vin[i].prevout in next
    requires SubPool(now, before) && HashesMatch(before)
    requires NoConflict(now, tx, i) && CausedBy(before, now, tx) && NoOrphans(before, now)
    requires next[tx.vin[i].prevout].txid in now && !TxEquals(now[next[tx.vin[i].prevout].txid], tx)
    requires after == now - Descendants(now, now[next[tx.vin[i].prevout].txid])
    ensures SubPool(after, before) && NoConflict(after, tx, i + 1) && CausedBy(before, after, tx)
    ensures NoOrphans(before, after)
  {
    hide NoConflict, CausedBy, NoOrphans, Descendants;
    NoConflictAfter(now, next, after, tx, i);
    StillCausedBy(before, now, next, after, tx, i);
    StillNoOrphans(before, now, after, now[next[tx.vin[i].prevout].txid]);
  }

  lemma NoConflictAfter(now: Pool, next: NextTx, after: Pool, tx: Transaction, i: nat)
    requires i < |tx.vin| && Consistent(now, next) && tx.vin[i].prevout in next && NoConflict(now, tx, i)
    requires next[tx.vin[i].prevout].txid in now && !TxEquals(now[next[tx.vin[i].prevout].txid], tx)
    requires after == now - Descendants(now, now[next[tx.vin[i].prevout].txid])
    ensures NoConflict(after, tx, i + 1)
  {
    RootDescends(now, now[next[tx.vin[i].prevout].txid]);
    forall h, j | h in after && 0 <= j < |after[h].vin|
      ensures after[h].vin[j].prevout !in Outputs(tx, i + 1)
    {
      OthersSpendNothing(now, next, tx, i, h, j);
    }
  }

  lemma StillCausedBy(before: Pool, now: Pool, next: NextTx, after: Pool, tx: Transaction, i: nat)
    requires i < |tx.vin| && Consistent(now, next) && tx.vin[i].prevout in next
    requires SubPool(now, before) && HashesMatch(before) && CausedBy(before, now, tx)
    requires next[tx.vin[i].prevout].txid in now && !TxEquals(now[next[tx.vin[i].prevout].txid], tx)
    requires after == now - Descendants(now, now[next[tx.vin[i].prevout].txid])
    ensures CausedBy(before, after, tx)
  {
    var point := next[tx.vin[i].prevout];
    var root := now[point.txid];
    assert root.vin[point.n].prevout in Outputs(tx, |tx.vin|);
    assert IsConflict(before, tx, point.txid);
    hide IsConflict, TxEquals, Descends, Outputs;
    forall h | h in before && h !in after
      ensures exists c :: IsConflict(before, tx, c) && Descends(before, before[c], h)
    {
      if h in now {
        DescendsInLarger(now, before, root, h);
      }
    }
  }

  lemma StillNoOrphans(before: Pool, now: Pool, after: Pool, root: Transaction)
    requires SubPool(now, before) && HashesMatch(before) && NoOrphans(before, now)
    requires root.hash in now && now[root.hash] == root && after == now - Descendants(now, root)
    ensures NoOrphans(before, after)
  {
    forall p, c | p in before && p !in after && c in after
      ensures !Spends(before, before[p], p, c)
    {
      if p in now && Spends(before, before[p], p, c) {
        assert Spends(now, root, p, c);
        SpenderDescends(now, root, p, c);
      }
    }
  }

  /** The inputs of an equal transaction are the same ones, and only one transaction spends each: if
      input `i` is spent by an unequal one, no other spends any input up to it. */
  lemma OthersSpendNothing(pool: Pool, next: NextTx, tx: Transaction, i: nat, h: Hash, j: nat)
    requires i < |tx.vin| && Consistent(pool, next) && tx.vin[i].prevout in next
    requires NoConflict(pool, tx, i) && next[tx.vin[i].prevout].txid in pool
    requires !TxEquals(pool[next[tx.vin[i].prevout].txid], tx)
    requires h in pool && h != next[tx.vin[i].prevout].txid && j < |pool[h].vin|
    ensures pool[h].vin[j].prevout !in Outputs(tx, i + 1)
  {
    hide Consistent;
    ListedAt(pool, next, h, j);
    assert Outputs(tx, i + 1) == Outputs(tx, i) + {tx.vin[i].prevout};
    if pool[h].vin[j].prevout in Outputs(tx, i) {
      assert SpendsInput(pool[h], tx, i);
      ListedAt(pool, next, h, i);
    }
  }

  lemma DescendsInLarger(small: Pool, pool: Pool, root: Transaction, h: Hash)
    requires SubPool(small, pool) && root.hash in small && small[root.hash] == root && Descends(small, root, h)
    ensures Descends(pool, root, h)
  {
    var path :| Chain(small, root, path) && path[|path| - 1] == h;
    forall k | 0 <= k < |path| - 1
      ensures Spends(pool, root, path[k], path[k + 1])
    {
      assert Spends(small, root, path[k], path[k + 1]);
      SpendsInLarger(small, pool, root, root.hash, path[k], path[k + 1]);
    }
    assert Chain(pool, root, path);
  }

  lemma OwnHashes(pool: Pool, next: NextTx)
    requires Consistent(pool, next)
    ensures HashesMatch(pool)
  {
  }

  lemma Spender(pool: Pool, next: NextTx, out: OutPoint, rank: Hash -> nat)
    requires Consistent(pool, next) && Ranked(pool, rank) && out in next
    ensures next[out].txid in pool && pool[next[out].txid].hash == next[out].txid
    ensures rank(next[out].txid) < rank(out.hash)
  {
  }

  lemma RankedSubset(before: Pool, now: Pool, rank: Hash -> nat)
    requires Ranked(before, rank) && SubPool(now, before)
    ensures Ranked(now, rank)
  {
  }

  lemma PartialOwn(before: Pool, now: Pool, tx: Transaction, k: nat)
    requires Partial(before, now, tx, k) && IsOwn(before, tx)
    ensures IsOwn(now, tx)
  {
  }
}
