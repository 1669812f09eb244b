/** Block locators: a short list of hashes that tells a peer where the branches part. */
module BlockLocators {
  import opened Arithmetic
  import opened BlockIndexes
  import opened BlockTrees
  import opened ChainStates
  import opened Transactions

  // ---------------------------------------------------------------- which blocks are listed

  /** How far behind the tip entry k is: one by one at first, then in doubling steps. */
  function Offset(k: nat): nat {
    if k <= 10 then k else 9 + Pow2(k - 10)
  }

  function Step(k: nat): nat {
    if k <= 10 then 1 else Pow2(k - 10)
  }

  lemma OffsetStep(k: nat)
    ensures Offset(k + 1) == Offset(k) + Step(k)
    ensures Step(k + 1) == if k >= 10 then 2 * Step(k) else Step(k)
  {
    if k >= 10 {
      assert Pow2(k + 1 - 10) == 2 * Pow2(k - 10);
    }
  }

  /** The number of entries at most `h` behind the tip, from entry k on. */
  function EntriesFrom(h: nat, k: nat): (n: nat)
    ensures n >= k && Offset(n) > h
    ensures n > k ==> Offset(n - 1) <= h
    decreases h - Offset(k)
  {
    OffsetStep(k);
    if Offset(k) > h then k else EntriesFrom(h, k + 1)
  }

  function Entries(h: nat): nat {
    EntriesFrom(h, 0)
  }

  lemma {:induction false} OffsetsGrow(j: nat, k: nat)
    requires j <= k
    ensures Offset(j) + (k - j) <= Offset(k)
    decreases k - j
  {
    if j < k {
      OffsetStep(k - 1);
      OffsetsGrow(j, k - 1);
    }
  }

  lemma EntriesAre(h: nat, k: nat)
    ensures k < Entries(h) <==> Offset(k) <= h
  {
    var n := Entries(h);
    if k < n {
      OffsetsGrow(k, n - 1);
    } else {
      OffsetsGrow(n, k);
    }
  }

  ghost function HashAt(pindex: BlockIndex, height: nat): Hash
    requires WellFormed(pindex) && height <= pindex.nHeight
  {
    Ancestor(pindex, height).block.hash
  }

  /** The hashes of the first `n` entries. */
  ghost function Listed(pindex: BlockIndex, n: nat): (hashes: seq<Hash>)
    requires WellFormed(pindex) && n <= Entries(pindex.nHeight)
    ensures |hashes| == n
    ensures forall k | 0 <= k < n ::
      Offset(k) <= pindex.nHeight && hashes[k] == HashAt(pindex, pindex.nHeight - Offset(k))
  {
    hide Offset, Entries, HashAt, WellFormed;
    if n == 0 then []
    else
      EntriesAre(pindex.nHeight, n - 1);
      Listed(pindex, n - 1) + [HashAt(pindex, pindex.nHeight - Offset(n - 1))]
  }

  /** A whole locator: the entries and, once more, the genesis block. */
  ghost function Locator(pindex: BlockIndex, hashGenesisBlock: Hash): seq<Hash>
    requires WellFormed(pindex)
  {
    Listed(pindex, Entries(pindex.nHeight)) + [hashGenesisBlock]
  }

  method Set(pindexIn: BlockIndex?, hashGenesisBlock: Hash) returns (vHave: seq<Hash>)
    requires pindexIn != null ==> WellFormed(pindexIn)
    ensures vHave == if pindexIn == null then [hashGenesisBlock] else Locator(pindexIn, hashGenesisBlock)
  {
    hide Offset, Step, Entries, Ancestor, WellFormed, Pow2;
    vHave := [];
    if pindexIn != null {
      vHave := ListEntries(pindexIn);
    }
    vHave := vHave + [hashGenesisBlock];
  }

  /** The loop of Set, from an existing block. */
  method ListEntries(tip: BlockIndex) returns (vHave: seq<Hash>)
    requires WellFormed(tip)
    ensures vHave == Listed(tip, Entries(tip.nHeight))
  {
    hide Offset, Step, Entries, Ancestor, WellFormed, Pow2;
    var pindex: BlockIndex? := tip;
    vHave := [];
    var nStep := 1;
    FirstEntry(tip);
    while pindex != null
      invariant |vHave| <= Entries(tip.nHeight) && vHave == Listed(tip, |vHave|)
      invariant nStep == Step(|vHave|)
      invariant Offset(|vHave|) <= tip.nHeight <==> pindex != null
      invariant pindex != null ==> pindex == Ancestor(tip, tip.nHeight - Offset(|vHave|))
      decreases Entries(tip.nHeight) - |vHave|
    {
      var k := |vHave|;
      EntriesAre(tip.nHeight, k);
      NextListed(tip, k);
      vHave := vHave + [pindex.block.hash];
      pindex := StepBack(pindex, tip, nStep);
      OffsetStep(k);
      if |vHave| > 10 {
        nStep := nStep * 2;
      }
    }
    EntriesAre(tip.nHeight, |vHave|);
  }

  lemma FirstEntry(tip: BlockIndex)
    requires WellFormed(tip)
    ensures Offset(0) == 0 && Step(0) == 1 && Ancestor(tip, tip.nHeight) == tip && Listed(tip, 0) == []
  {
  }

  lemma NextListed(tip: BlockIndex, k: nat)
    requires WellFormed(tip) && k < Entries(tip.nHeight) && Offset(k) <= tip.nHeight
    ensures Listed(tip, k + 1) == Listed(tip, k) + [HashAt(tip, tip.nHeight - Offset(k))]
  {
    hide Offset, Entries, Ancestor;
  }

  /** The inner loop: so many blocks back, or off the end of the chain. */
  method StepBack(from: BlockIndex, ghost tip: BlockIndex, nStep: nat) returns (pindex: BlockIndex?)
    requires WellFormed(tip) && IsAncestor(from, tip)
    ensures pindex == if nStep <= from.nHeight then Ancestor(tip, from.nHeight - nStep) else null
  {
    pindex := from;
    var i := 0;
    while pindex != null && i < nStep
      invariant i <= nStep && pindex == if i <= from.nHeight then Ancestor(tip, from.nHeight - i) else null
      invariant pindex == null ==> i > from.nHeight
    {
      if pindex.nHeight > 0 {
        AncestorStep(tip, pindex.nHeight);
      }
      pindex := pindex.pprev;
      i := i + 1;
    }
  }

  // ---------------------------------------------------------------- how long it is

  function Log2(n: nat): (k: nat)
    ensures n >= 1 ==> Pow2(k) <= n < 2 * Pow2(k)
  {
    if n <= 1 then 0 else 1 + Log2(n / 2)
  }

  lemma {:induction false} Log2Bounds(n: nat, k: nat)
    requires Pow2(k) <= n
    ensures k <= Log2(n)
    decreases k
  {
    if k > 0 {
      Log2Bounds(n / 2, k - 1);
    }
  }

  /** The list grows with the logarithm of the height. */
  lemma LocatorIsShort(pindex: BlockIndex, hashGenesisBlock: Hash)
    requires WellFormed(pindex) && pindex.nHeight >= 1
    ensures |Locator(pindex, hashGenesisBlock)| <= 12 + Log2(pindex.nHeight)
  {
    hide WellFormed;
    var h := pindex.nHeight;
    var n := Entries(h);
    if n >= 12 {
      EntriesAre(h, n - 1);
      Log2Bounds(h, n - 11);
    }
  }

  // ---------------------------------------------------------------- what the receiver finds

  /** Of the blocks that are known by hash, those in the main chain. */
  ghost function MainPart(mapBlockIndex: map<Hash, BlockIndex>, pindexBest: BlockIndex?): map<Hash, BlockIndex>
    reads mapBlockIndex.Values`pnext
  {
    map hash | hash in mapBlockIndex && IsInMainChain(mapBlockIndex[hash], pindexBest) :: mapBlockIndex[hash]
  }

  predicate IsInMainChain(b: BlockIndex, pindexBest: BlockIndex?)
    reads b`pnext
  {
    b.pnext != null || b == pindexBest
  }

  /** The first listed block of the main chain, or the genesis block. */
  function Found(vHave: seq<Hash>, main: map<Hash, BlockIndex>, pindexGenesisBlock: BlockIndex?): BlockIndex? {
    if vHave == [] then pindexGenesisBlock
    else if vHave[0] in main then main[vHave[0]]
    else Found(vHave[1..], main, pindexGenesisBlock)
  }

  method GetBlockIndex(vHave: seq<Hash>, mapBlockIndex: map<Hash, BlockIndex>, pindexBest: BlockIndex?,
                       pindexGenesisBlock: BlockIndex?)
    returns (r: BlockIndex?)
    ensures r == Found(vHave, MainPart(mapBlockIndex, pindexBest), pindexGenesisBlock)
  {
    ghost var main := MainPart(mapBlockIndex, pindexBest);
    for i := 0 to |vHave|
      invariant Found(vHave, main, pindexGenesisBlock) == Found(vHave[i..], main, pindexGenesisBlock)
    {
      assert vHave[i..][0] == vHave[i] && vHave[i..][1..] == vHave[i + 1..];
      if vHave[i] in mapBlockIndex {
        var pindex := mapBlockIndex[vHave[i]];
        if IsInMainChain(pindex, pindexBest) {
          return pindex;
        }
      }
    }
    r := pindexGenesisBlock;
  }

  lemma {:induction false} FoundFirst(vHave: seq<Hash>, main: map<Hash, BlockIndex>, genesis: BlockIndex?, k: nat)
    requires k < |vHave| && vHave[k] in main && forall j | 0 <= j < k :: vHave[j] !in main
    ensures Found(vHave, main, genesis) == main[vHave[k]]
    decreases k
  {
    if k > 0 {
      FoundFirst(vHave[1..], main, genesis, k - 1);
    }
  }

  /** The first entry at least `d` behind the tip. */
  function FirstFrom(d: nat, k: nat): (n: nat)
    requires forall j | 0 <= j < k :: Offset(j) < d
    ensures Offset(n) >= d && forall j | 0 <= j < n :: Offset(j) < d
    decreases d - Offset(k)
  {
    OffsetStep(k);
    if Offset(k) >= d then k else FirstFrom(d, k + 1)
  }

  lemma FirstIsNear(d: nat)
    ensures Offset(FirstFrom(d, 0)) <= if d <= 11 then d else 2 * d - 11
  {
    var n := FirstFrom(d, 0);
    if n > 0 {
      assert Offset(n - 1) < d;
      OffsetStep(n - 1);
    }
  }

  /** Where the fork with the receiver's main chain is `d` blocks back, the receiver finds a block of
      both branches at most max(d, 2d - 11) back. */
  lemma FindsNearFork(pindex: BlockIndex, main: map<Hash, BlockIndex>, genesis: BlockIndex?, d: nat) returns (g: nat)
    requires WellFormed(pindex) && d <= pindex.nHeight
    requires forall i: nat | i <= pindex.nHeight :: HashAt(pindex, i) in main <==> i <= pindex.nHeight - d
    ensures g <= pindex.nHeight - d
    ensures Found(Locator(pindex, HashAt(pindex, 0)), main, genesis) == main[HashAt(pindex, g)]
    ensures pindex.nHeight - g <= d || pindex.nHeight - g <= 2 * d - 11
  {
    hide Offset, Entries, WellFormed, Ancestor, HashAt, Found;
    var h := pindex.nHeight;
    var vHave := Locator(pindex, HashAt(pindex, 0));
    var n := FirstFrom(d, 0);
    FirstIsNear(d);
    EntriesAre(h, n);
    if Offset(n) <= h {
      g := h - Offset(n);
      FoundFirst(vHave, main, genesis, n);
    } else {
      g := 0;
      forall j | 0 <= j < Entries(h)
        ensures vHave[j] !in main
      {
        EntriesAre(h, j);
        OffsetsGrow(j, if j < n then n - 1 else j);
      }
      FoundFirst(vHave, main, genesis, Entries(h));
    }
  }

  /** In a consistent chain state the main part is the branch of the tip. */
  lemma MainPartIsBranch(chain: ChainState, mapBlockIndex: map<Hash, BlockIndex>, hash: Hash)
    requires chain.Valid() && chain.pindexBest != null
    requires hash in mapBlockIndex && mapBlockIndex[hash] in chain.index
    ensures WellFormed(chain.pindexBest)
    ensures hash in MainPart(mapBlockIndex, chain.pindexBest) <==> IsAncestor(mapBlockIndex[hash], chain.pindexBest)
  {
    chain.InMainChain(mapBlockIndex[hash]);
    hide ChainState.Valid;
  }
}
