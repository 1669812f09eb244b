/** The Merkle tree of a block: node hashes, the flat array that stores them, and branches. */
module MerkleTrees {
  import opened Arithmetic
  import opened Transactions

  /** The hash of two concatenated hashes. */
  type PairHash = (Hash, Hash) -> Hash

  // ---------------------------------------------------------------- shape

  /** Nodes at each level: every level has half as many as the one below, rounded up. */
  function Width(n: nat, height: nat): nat {
    if height == 0 then n else (Width(n, height - 1) + 1) / 2
  }

  /** CalcTreeWidth, with its shifts written as products and quotients. */
  function CalcTreeWidth(n: nat, height: nat): nat {
    (n + Pow2(height) - 1) / Pow2(height)
  }

  lemma HalfQuotient(a: nat, p: nat)
    requires p > 0
    ensures (a + p) / (2 * p) == (a / p + 1) / 2
  {
    var q, r := a / p, a % p;
    var k := (q + 1) / 2;
    assert a == q * p + r;
    assert (2 * k) * p == k * (2 * p);
    if q % 2 == 1 {
      assert q + 1 == 2 * k;
      assert (q + 1) * p == q * p + p;
      QuotientIs(a + p, 2 * p, k, r);
    } else {
      assert q == 2 * k;
      QuotientIs(a + p, 2 * p, k, p + r);
    }
  }

  lemma {:induction false} CalcTreeWidthIsWidth(n: nat, height: nat)
    ensures CalcTreeWidth(n, height) == Width(n, height)
    decreases height
  {
    if height == 0 {
      assert n / 1 == n;
    } else {
      CalcTreeWidthIsWidth(n, height - 1);
      HalfQuotient(n + Pow2(height - 1) - 1, Pow2(height - 1));
    }
  }

  lemma WidthShrinks(n: nat, height: nat)
    ensures Width(n, height) > 1 ==> Width(n, height + 1) < Width(n, height)
    ensures Width(n, height) > 0 <==> Width(n, height + 1) > 0
  {
  }

  /** The first level from `height` upwards with at most one node. */
  function HeightFrom(n: nat, height: nat): (r: nat)
    ensures r >= height && Width(n, r) <= 1
    ensures forall k | height <= k < r :: Width(n, k) > 1
    decreases Width(n, height)
  {
    WidthShrinks(n, height);
    if Width(n, height) <= 1 then height else HeightFrom(n, height + 1)
  }

  function TreeHeight(n: nat): nat {
    HeightFrom(n, 0)
  }

  lemma {:induction false} WidthPositive(n: nat, height: nat)
    requires n > 0
    ensures Width(n, height) > 0
    decreases height
  {
    if height > 0 {
      WidthPositive(n, height - 1);
    }
  }

  lemma OneRoot(n: nat)
    requires n > 0
    ensures Width(n, TreeHeight(n)) == 1
  {
    WidthPositive(n, TreeHeight(n));
  }

  /** A node exists exactly when its first leaf does. */
  lemma {:induction false} NodeHasLeaf(n: nat, height: nat, pos: nat)
    ensures pos < Width(n, height) <==> pos * Pow2(height) < n
    decreases height
  {
    hide Width, Pow2;
    if height == 0 {
      BottomLevel(n, pos);
    } else {
      NodeHasLeaf(n, height - 1, 2 * pos);
      LeftChildHasLeaf(n, height, pos);
    }
  }

  lemma BottomLevel(n: nat, pos: nat)
    ensures Width(n, 0) == n && pos * Pow2(0) == pos
  {
  }

  lemma LeftChildHasLeaf(n: nat, height: nat, pos: nat)
    requires height > 0
    ensures pos < Width(n, height) <==> 2 * pos < Width(n, height - 1)
    ensures (2 * pos) * Pow2(height - 1) == pos * Pow2(height)
  {
    var p := Pow2(height - 1);
    assert Pow2(height) == 2 * p;
    hide Pow2;
    assert (2 * pos) * p == pos * (2 * p);
  }

  // ---------------------------------------------------------------- node hashes

  /** The hash of a node; a node without a right child takes its left child twice. */
  function CalcHash(h: PairHash, txids: seq<Hash>, height: nat, pos: nat): Hash
    requires pos < Width(|txids|, height)
    decreases height
  {
    if height == 0 then txids[pos]
    else h(LeftHash(h, txids, height, pos), RightHash(h, txids, height, pos))
  }

  function LeftHash(h: PairHash, txids: seq<Hash>, height: nat, pos: nat): Hash
    requires height > 0 && pos < Width(|txids|, height)
    decreases height, 0
  {
    CalcHash(h, txids, height - 1, 2 * pos)
  }

  function RightHash(h: PairHash, txids: seq<Hash>, height: nat, pos: nat): Hash
    requires height > 0 && pos < Width(|txids|, height)
    decreases height, 1
  {
    if 2 * pos + 1 < Width(|txids|, height - 1) then CalcHash(h, txids, height - 1, 2 * pos + 1)
    else LeftHash(h, txids, height, pos)
  }

  function MerkleRoot(h: PairHash, txids: seq<Hash>): Hash {
    if txids == [] then 0
    else
      OneRoot(|txids|);
      CalcHash(h, txids, TreeHeight(|txids|), 0)
  }

  /** Nobody can offer another pair that hashes to an inner node of this tree. */
  ghost predicate NoSecondPreimage(h: PairHash, txids: seq<Hash>) {
    forall height: nat, pos: nat, a: Hash, b: Hash {:trigger CalcHash(h, txids, height, pos), h(a, b)} ::
      height > 0 && pos < Width(|txids|, height) && h(a, b) == CalcHash(h, txids, height, pos) ==>
        a == LeftHash(h, txids, height, pos) && b == RightHash(h, txids, height, pos)
  }

  /** An injective hash in particular has no second preimages. */
  lemma InjectiveHasNoSecondPreimage(h: PairHash, txids: seq<Hash>)
    requires forall a: Hash, b: Hash, c: Hash, d: Hash :: h(a, b) == h(c, d) ==> a == c && b == d
    ensures NoSecondPreimage(h, txids)
  {
    forall height: nat, pos: nat, a: Hash, b: Hash | height > 0 && pos < Width(|txids|, height) &&
      h(a, b) == CalcHash(h, txids, height, pos)
      ensures a == LeftHash(h, txids, height, pos) && b == RightHash(h, txids, height, pos)
    {
      assert h(a, b) == h(LeftHash(h, txids, height, pos), RightHash(h, txids, height, pos));
    }
  }

  // ---------------------------------------------------------------- the flat array

  function Level(h: PairHash, txids: seq<Hash>, height: nat): (r: seq<Hash>)
    ensures |r| == Width(|txids|, height)
  {
    seq(Width(|txids|, height), i requires 0 <= i < Width(|txids|, height) => CalcHash(h, txids, height, i))
  }

  /** Where level `height` starts. */
  function Offset(n: nat, height: nat): nat {
    if height == 0 then 0 else Offset(n, height - 1) + Width(n, height - 1)
  }

  /** The levels below `height`, one after the other. */
  function Levels(h: PairHash, txids: seq<Hash>, height: nat): (r: seq<Hash>)
    ensures |r| == Offset(|txids|, height)
  {
    if height == 0 then [] else Levels(h, txids, height - 1) + Level(h, txids, height - 1)
  }

  /** The whole tree: all levels up to the first with at most one node. */
  function FlatTree(h: PairHash, txids: seq<Hash>): seq<Hash> {
    Levels(h, txids, TreeHeight(|txids|) + 1)
  }

  /** The hash of node (height, pos) is stored at the level's offset plus the position. */
  lemma {:induction false} LevelsAt(h: PairHash, txids: seq<Hash>, top: nat, height: nat, pos: nat)
    requires height < top && pos < Width(|txids|, height)
    ensures Offset(|txids|, height) + pos < |Levels(h, txids, top)|
    ensures Levels(h, txids, top)[Offset(|txids|, height) + pos] == CalcHash(h, txids, height, pos)
    decreases top
  {
    if height < top - 1 {
      LevelsAt(h, txids, top - 1, height, pos);
    }
  }

  // ---------------------------------------------------------------- branches

  /** The other child of the same parent. */
  function Sibling(nIndex: int): (r: int)
    ensures r >= 0 <==> nIndex >= 0
  {
    if nIndex % 2 == 0 then nIndex + 1 else nIndex - 1
  }

  /** The sibling hashes on the way from node (height, nIndex) to the root; a sibling beyond the end
      of its level is replaced by the last node. */
  function Branch(h: PairHash, txids: seq<Hash>, height: nat, nIndex: int): (r: seq<Hash>)
    requires nIndex >= 0 || Width(|txids|, height) <= 1
    ensures |r| == HeightFrom(|txids|, height) - height
    decreases Width(|txids|, height)
  {
    var nSize := Width(|txids|, height);
    WidthShrinks(|txids|, height);
    if nSize <= 1 then []
    else [CalcHash(h, txids, height, MinNat(Sibling(nIndex), nSize - 1))] + Branch(h, txids, height + 1, nIndex / 2)
  }

  /** Shifting a negative index right and testing its last bit are the quotient and the remainder too. */
  function BranchRoot(h: PairHash, hash: Hash, branch: seq<Hash>, nIndex: int): Hash
    decreases |branch|
  {
    if branch == [] then hash
    else BranchRoot(h, if nIndex % 2 == 1 then h(branch[0], hash) else h(hash, branch[0]), branch[1..], nIndex / 2)
  }

  /** A branch verifies to the root, from any level. */
  lemma {:induction false} BranchReachesRoot(h: PairHash, txids: seq<Hash>, height: nat, nIndex: nat)
    requires height <= TreeHeight(|txids|) && nIndex < Width(|txids|, height)
    ensures BranchRoot(h, CalcHash(h, txids, height, nIndex), Branch(h, txids, height, nIndex), nIndex) ==
      MerkleRoot(h, txids)
    decreases Width(|txids|, height)
  {
    hide *;
    WidthShrinks(|txids|, height);
    HeightReached(|txids|, height);
    BranchUnfolds(h, txids, height, nIndex);
    var x, branch := CalcHash(h, txids, height, nIndex), Branch(h, txids, height, nIndex);
    BranchRootStep(h, x, branch, nIndex);
    if Width(|txids|, height) > 1 {
      assert branch[1..] == Branch(h, txids, height + 1, nIndex / 2);
      ParentHash(h, txids, height, nIndex);
      BranchReachesRoot(h, txids, height + 1, nIndex / 2);
    } else {
      RootHash(h, txids);
    }
  }

  lemma BranchRootStep(h: PairHash, hash: Hash, branch: seq<Hash>, nIndex: int)
    ensures BranchRoot(h, hash, branch, nIndex) == if branch == [] then hash else
      BranchRoot(h, if nIndex % 2 == 1 then h(branch[0], hash) else h(hash, branch[0]), branch[1..], nIndex / 2)
  {
  }

  lemma RootHash(h: PairHash, txids: seq<Hash>)
    requires txids != []
    ensures 0 < Width(|txids|, TreeHeight(|txids|))
    ensures CalcHash(h, txids, TreeHeight(|txids|), 0) == MerkleRoot(h, txids)
  {
    OneRoot(|txids|);
  }

  lemma HeightReached(n: nat, height: nat)
    requires height <= TreeHeight(n)
    ensures Width(n, height) <= 1 <==> height == TreeHeight(n)
    ensures HeightFrom(n, height) == TreeHeight(n)
  {
    if height < TreeHeight(n) {
      assert Width(n, height) > 1;
    }
    var r := HeightFrom(n, height);
    assert r >= TreeHeight(n);
    assert r <= TreeHeight(n);
  }

  /** A parent hashes a child and the child's clamped sibling, in the right order. */
  lemma ParentHash(h: PairHash, txids: seq<Hash>, height: nat, nIndex: nat)
    requires nIndex < Width(|txids|, height)
    ensures nIndex / 2 < Width(|txids|, height + 1)
    ensures var s := CalcHash(h, txids, height, MinNat(Sibling(nIndex), Width(|txids|, height) - 1));
      var x := CalcHash(h, txids, height, nIndex);
      && LeftHash(h, txids, height + 1, nIndex / 2) == (if nIndex % 2 == 1 then s else x)
      && RightHash(h, txids, height + 1, nIndex / 2) == (if nIndex % 2 == 1 then x else s)
      && CalcHash(h, txids, height + 1, nIndex / 2) == if nIndex % 2 == 1 then h(s, x) else h(x, s)
  {
    if nIndex % 2 == 1 {
      assert 2 * (nIndex / 2) == nIndex - 1;
    } else {
      assert 2 * (nIndex / 2) == nIndex;
    }
  }

  /** The branch of every transaction verifies. */
  lemma BranchIsComplete(h: PairHash, txids: seq<Hash>, nIndex: nat)
    requires nIndex < |txids|
    ensures BranchRoot(h, txids[nIndex], Branch(h, txids, 0, nIndex), nIndex) == MerkleRoot(h, txids)
  {
    BranchReachesRoot(h, txids, 0, nIndex);
  }

  lemma BranchUnfolds(h: PairHash, txids: seq<Hash>, height: nat, nIndex: nat)
    requires nIndex < Width(|txids|, height)
    ensures Width(|txids|, height) <= 1 ==> nIndex == 0 && Branch(h, txids, height, nIndex) == []
    ensures nIndex / 2 < Width(|txids|, height + 1)
    ensures Width(|txids|, height) > 1 ==> (Branch(h, txids, height, nIndex) ==
      [CalcHash(h, txids, height, MinNat(Sibling(nIndex), Width(|txids|, height) - 1))] +
        Branch(h, txids, height + 1, nIndex / 2))
    ensures txids != []
  {
    WidthOfNothing(height);
  }

  lemma {:induction false} WidthOfNothing(height: nat)
    ensures Width(0, height) == 0
    decreases height
  {
    if height > 0 {
      WidthOfNothing(height - 1);
    }
  }

  lemma {:induction false} BranchFrom(h: PairHash, txids: seq<Hash>, height: nat, nIndex: nat, hash: Hash,
                                      branch: seq<Hash>)
    requires NoSecondPreimage(h, txids)
    requires height <= TreeHeight(|txids|) && nIndex < Width(|txids|, height)
    requires |branch| == TreeHeight(|txids|) - height
    requires BranchRoot(h, hash, branch, nIndex) == MerkleRoot(h, txids)
    ensures hash == CalcHash(h, txids, height, nIndex)
    ensures branch == Branch(h, txids, height, nIndex)
    decreases |branch|
  {
    hide CalcHash, LeftHash, RightHash, Width, HeightFrom;
    HeightReached(|txids|, height);
    BranchUnfolds(h, txids, height, nIndex);
    if branch != [] {
      var s := branch[0];
      ParentHash(h, txids, height, nIndex);
      var up := if nIndex % 2 == 1 then h(s, hash) else h(hash, s);
      BranchFrom(h, txids, height + 1, nIndex / 2, up, branch[1..]);
      assert branch == [s] + branch[1..];
    } else {
      OneRoot(|txids|);
    }
  }

  /** A branch of the tree's height that verifies at a position of the block proves the
      transaction at that position, and is that transaction's own branch. */
  lemma BranchIsSound(h: PairHash, txids: seq<Hash>, nIndex: nat, hash: Hash, branch: seq<Hash>)
    requires NoSecondPreimage(h, txids) && nIndex < |txids| && |branch| == TreeHeight(|txids|)
    ensures BranchRoot(h, hash, branch, nIndex) == MerkleRoot(h, txids) <==>
      hash == txids[nIndex] && branch == Branch(h, txids, 0, nIndex)
  {
    BranchIsComplete(h, txids, nIndex);
    if BranchRoot(h, hash, branch, nIndex) == MerkleRoot(h, txids) {
      BranchFrom(h, txids, 0, nIndex, hash, branch);
    }
  }

  /** The Merkle part of a block. */
  class BlockTree {
    const txids: seq<Hash>
    const h: PairHash
    var vMerkleTree: seq<Hash>

    constructor (h: PairHash, txids: seq<Hash>)
      ensures this.h == h && this.txids == txids && vMerkleTree == []
    {
      this.h := h;
      this.txids := txids;
      vMerkleTree := [];
    }

    method BuildMerkleTree() returns (root: Hash)
      modifies this
      ensures vMerkleTree == FlatTree(h, txids)
      ensures root == MerkleRoot(h, txids)
    {
      vMerkleTree := txids;
      var j, nSize := 0, |txids|;
      ghost var height := 0;
      assert Levels(h, txids, 0) + Level(h, txids, 0) == txids;
      while nSize > 1
        invariant nSize == Width(|txids|, height) && j == Offset(|txids|, height)
        invariant height <= TreeHeight(|txids|)
        invariant vMerkleTree == Levels(h, txids, height + 1)
        decreases nSize
      {
        HeightReached(|txids|, height);
        HashLevel(j, nSize, height);
        j := j + nSize;
        nSize := (nSize + 1) / 2;
        height := height + 1;
      }
      HeightReached(|txids|, height);
      FlatTreeEmpty(h, txids);
      if vMerkleTree == [] {
        return 0;
      }
      LastIsRoot(h, txids);
      root := vMerkleTree[|vMerkleTree| - 1];
    }

    /** Append the level above the one that starts at `j`. */
    method HashLevel(j: nat, nSize: nat, ghost height: nat)
      requires nSize == Width(|txids|, height) && j == Offset(|txids|, height)
      requires vMerkleTree == Levels(h, txids, height + 1)
      modifies this
      ensures vMerkleTree == Levels(h, txids, height + 2)
    {
      hide Levels, CalcHash, Width, Offset;
      ghost var below := vMerkleTree;
      LevelSize(|txids|, height);
      LevelAppended(h, txids, height);
      var i := 0;
      while i < nSize
        invariant i % 2 == 0 && i <= nSize + 1
        invariant vMerkleTree == below + Level(h, txids, height + 1)[..i / 2]
        decreases nSize - i
      {
        var i2 := MinNat(i + 1, nSize - 1);
        PairInLevels(h, txids, height, i, j, i2);
        assert vMerkleTree[j + i] == below[j + i] && vMerkleTree[j + i2] == below[j + i2];
        var hash := h(vMerkleTree[j + i], vMerkleTree[j + i2]);
        assert Level(h, txids, height + 1)[..i / 2 + 1] == Level(h, txids, height + 1)[..i / 2] + [hash];
        vMerkleTree := vMerkleTree + [hash];
        i := i + 2;
      }
      assert Level(h, txids, height + 1)[..i / 2] == Level(h, txids, height + 1);
    }

    method GetMerkleBranch(nIndexIn: int) returns (vMerkleBranch: seq<Hash>)
      requires nIndexIn >= 0 || |txids| <= 1
      requires vMerkleTree == [] || vMerkleTree == FlatTree(h, txids)
      modifies this
      ensures vMerkleTree == FlatTree(h, txids)
      ensures vMerkleBranch == Branch(h, txids, 0, nIndexIn)
    {
      hide *;
      if vMerkleTree == [] {
        var _ := BuildMerkleTree();
      }
      vMerkleBranch := [];
      var nIndex, j, nSize := nIndexIn, 0, |txids|;
      ghost var height := 0;
      LeafLevel(|txids|);
      while nSize > 1
        invariant vMerkleTree == FlatTree(h, txids)
        invariant nSize == Width(|txids|, height) && j == Offset(|txids|, height)
        invariant (nIndex >= 0 || nSize <= 1) && height <= TreeHeight(|txids|)
        invariant vMerkleBranch + Branch(h, txids, height, nIndex) == Branch(h, txids, 0, nIndexIn)
        decreases nSize
      {
        var i := MinNat(Sibling(nIndex), nSize - 1);
        BranchInFlatTree(h, txids, height, nIndex, j, i);
        vMerkleBranch := vMerkleBranch + [vMerkleTree[j + i]];
        nIndex := nIndex / 2;
        j := j + nSize;
        nSize := (nSize + 1) / 2;
        height := height + 1;
      }
      BranchAtTop(h, txids, height, nIndex);
    }

    static method CheckMerkleBranch(h: PairHash, hashIn: Hash, vMerkleBranch: seq<Hash>, nIndexIn: int)
      returns (hash: Hash)
      ensures hash == if nIndexIn == -1 then 0 else BranchRoot(h, hashIn, vMerkleBranch, nIndexIn)
    {
      if nIndexIn == -1 {
        return 0;
      }
      hash := hashIn;
      var nIndex := nIndexIn;
      for i := 0 to |vMerkleBranch|
        invariant BranchRoot(h, hash, vMerkleBranch[i..], nIndex) == BranchRoot(h, hashIn, vMerkleBranch, nIndexIn)
      {
        var otherside := vMerkleBranch[i];
        assert vMerkleBranch[i..][1..] == vMerkleBranch[i + 1..];
        if nIndex % 2 == 1 {
          hash := h(otherside, hash);
        } else {
          hash := h(hash, otherside);
        }
        nIndex := nIndex / 2;
      }
    }
  }

  lemma LeafLevel(n: nat)
    ensures Width(n, 0) == n && Offset(n, 0) == 0 && 0 <= TreeHeight(n)
  {
  }

  lemma LevelSize(n: nat, height: nat)
    ensures Width(n, height + 1) == (Width(n, height) + 1) / 2
  {
  }

  lemma LevelAppended(h: PairHash, txids: seq<Hash>, height: nat)
    ensures Levels(h, txids, height + 2) == Levels(h, txids, height + 1) + Level(h, txids, height + 1)
  {
  }

  /** Where the program finds the children of a node, and that hashing them gives the node. */
  lemma PairInLevels(h: PairHash, txids: seq<Hash>, height: nat, i: nat, j: nat, i2: nat)
    requires i < Width(|txids|, height) && i % 2 == 0
    requires j == Offset(|txids|, height) && i2 == MinNat(i + 1, Width(|txids|, height) - 1)
    ensures j + i < |Levels(h, txids, height + 1)| && j + i2 < |Levels(h, txids, height + 1)|
    ensures i / 2 < Width(|txids|, height + 1)
    ensures h(Levels(h, txids, height + 1)[j + i], Levels(h, txids, height + 1)[j + i2]) ==
      Level(h, txids, height + 1)[i / 2]
  {
    hide Levels, CalcHash, Width, Offset;
    LevelsAt(h, txids, height + 1, height, i);
    LevelsAt(h, txids, height + 1, height, i2);
    ParentHash(h, txids, height, i);
  }

  /** Where the program finds the next hash of a branch. */
  lemma BranchInFlatTree(h: PairHash, txids: seq<Hash>, height: nat, nIndex: nat, j: nat, i: nat)
    requires height <= TreeHeight(|txids|) && Width(|txids|, height) > 1
    requires j == Offset(|txids|, height) && i == MinNat(Sibling(nIndex), Width(|txids|, height) - 1)
    ensures height < TreeHeight(|txids|)
    ensures Width(|txids|, height + 1) == (Width(|txids|, height) + 1) / 2
    ensures Offset(|txids|, height + 1) == j + Width(|txids|, height)
    ensures j + i < |FlatTree(h, txids)|
    ensures Branch(h, txids, height, nIndex) == [FlatTree(h, txids)[j + i]] + Branch(h, txids, height + 1, nIndex / 2)
  {
    HeightReached(|txids|, height);
    LevelsAt(h, txids, TreeHeight(|txids|) + 1, height, i);
  }

  lemma BranchAtTop(h: PairHash, txids: seq<Hash>, height: nat, nIndex: int)
    requires Width(|txids|, height) <= 1
    ensures Branch(h, txids, height, nIndex) == []
  {
  }

  lemma FlatTreeEmpty(h: PairHash, txids: seq<Hash>)
    ensures FlatTree(h, txids) == [] <==> txids == []
  {
    if txids == [] {
      assert TreeHeight(0) == 0;
      assert Levels(h, txids, 1) == [];
    } else {
      LevelsAt(h, txids, TreeHeight(|txids|) + 1, 0, 0);
    }
  }

  lemma LastIsRoot(h: PairHash, txids: seq<Hash>)
    requires FlatTree(h, txids) != []
    ensures FlatTree(h, txids)[|FlatTree(h, txids)| - 1] == MerkleRoot(h, txids)
  {
    FlatTreeEmpty(h, txids);
    OneRoot(|txids|);
    LevelsAt(h, txids, TreeHeight(|txids|) + 1, TreeHeight(|txids|), 0);
  }
}
