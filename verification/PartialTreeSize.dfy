/** How many flag bits and bytes a partial Merkle tree takes. */
module PartialTreeSizes {
  import opened Arithmetic
  import opened MerkleTrees
  import opened PartialMerkleTrees
  import opened Transactions

  /** The last node of a level. */
  function LastNode(n: nat, height: nat): nat
    requires n > 0
  {
    WidthPositive(n, height);
    Width(n, height) - 1
  }

  /** The last node of this level has one child only, and something below it is chosen, so that the
      walk goes through it. */
  predicate LonelyLevel(match_: seq<bool>, height: nat)
    requires match_ != [] && height > 0
  {
    && Width(|match_|, height - 1) % 2 == 1
    && exists p | FirstLeaf(height, LastNode(|match_|, height)) <= p < |match_| :: match_[p]
  }

  /** How many such levels there are up to `height`: the visited inner nodes with a single child. */
  function LonelyLevels(match_: seq<bool>, height: nat): (r: nat)
    requires match_ != []
    ensures r <= height
    decreases height
  {
    if height == 0 then 0
    else LonelyLevels(match_, height - 1) + if LonelyLevel(match_, height) then 1 else 0
  }

  lemma {:induction false} NoLonelyLevels(match_: seq<bool>, height: nat)
    requires match_ != []
    ensures LonelyLevels(match_, height) == 0 <==> forall k | 0 < k <= height :: !LonelyLevel(match_, k)
    decreases height
  {
    hide LonelyLevel;
    if height > 0 {
      NoLonelyLevels(match_, height - 1);
    }
  }

  // ---------------------------------------------------------------- counting bits

  /** All leaves a node could have are there. */
  predicate IsFull(n: nat, height: nat, pos: nat) {
    (pos + 1) * Pow2(height) <= n
  }

  lemma FullChildren(n: nat, height: nat, pos: nat)
    requires height > 0 && IsFull(n, height, pos)
    ensures pos < Width(n, height) && 2 * pos < Width(n, height - 1) && 2 * pos + 1 < Width(n, height - 1)
    ensures IsFull(n, height - 1, 2 * pos) && IsFull(n, height - 1, 2 * pos + 1)
  {
    var p := Pow2(height - 1);
    assert Pow2(height) == 2 * p;
    NodeHasLeaf(n, height, pos);
    NodeHasLeaf(n, height - 1, 2 * pos);
    NodeHasLeaf(n, height - 1, 2 * pos + 1);
    hide Pow2, Width;
    ChildBounds(p, pos);
  }

  /** The last node of a level has the last node below as its last child; when it has two, the first
      of them is full. */
  lemma LastChildren(n: nat, height: nat)
    requires n > 0 && height > 0
    ensures LastNode(n, height - 1) + 1 == Width(n, height - 1)
    ensures var pos := LastNode(n, height);
      if Width(n, height - 1) % 2 == 1 then 2 * pos == LastNode(n, height - 1)
      else 2 * pos + 1 == LastNode(n, height - 1) && IsFull(n, height - 1, 2 * pos)
  {
    var pos := LastNode(n, height);
    NodeHasLeaf(n, height - 1, 2 * pos + 1);
    hide Pow2;
  }

  /** Below a full node, every inner node that is visited has two children. */
  lemma {:induction false} FullBits(h: PairHash, txids: seq<Hash>, match_: seq<bool>, height: nat, pos: nat)
    requires |txids| == |match_| && pos < Width(|txids|, height) && IsFull(|txids|, height, pos)
    ensures |Encode(h, txids, match_, height, pos).bits| == 2 * |Encode(h, txids, match_, height, pos).hashes| - 1
    decreases height
  {
    hide *;
    if height == 0 || Wanted(txids, match_, height, pos) == [] {
      EncodeStops(h, txids, match_, height, pos);
    } else {
      EncodeDescends(h, txids, match_, height, pos);
      FullChildren(|txids|, height, pos);
      FullBits(h, txids, match_, height - 1, 2 * pos);
      FullBits(h, txids, match_, height - 1, 2 * pos + 1);
    }
  }

  lemma LastWanted(txids: seq<Hash>, match_: seq<bool>, height: nat)
    requires |txids| == |match_| > 0
    ensures LastNode(|txids|, height) < Width(|txids|, height)
    ensures EndLeaf(|txids|, height, LastNode(|txids|, height)) == |txids|
    ensures Wanted(txids, match_, height, LastNode(|txids|, height)) != [] <==>
      exists p | FirstLeaf(height, LastNode(|txids|, height)) <= p < |txids| :: match_[p]
  {
    var pos := LastNode(|txids|, height);
    NodeHasLeaf(|txids|, height, pos + 1);
    NoneMatched(txids, match_, FirstLeaf(height, pos), |txids|);
  }

  /** Levels are left behind when nothing is chosen below the last node. */
  lemma {:induction false} NothingBelow(txids: seq<Hash>, match_: seq<bool>, height: nat)
    requires |txids| == |match_| > 0 && LastNode(|txids|, height) < Width(|txids|, height)
    requires Wanted(txids, match_, height, LastNode(|txids|, height)) == []
    ensures LonelyLevels(match_, height) == 0
    decreases height
  {
    hide Width, Wanted, FirstLeaf, EndLeaf, LastNode;
    if height > 0 {
      LastWanted(txids, match_, height);
      LastWanted(txids, match_, height - 1);
      LastChildren(|txids|, height);
      WantedSplits(txids, match_, height, LastNode(|txids|, height));
      NothingBelow(txids, match_, height - 1);
    }
  }

  /** The exact number of flag bits below the last node of a level. */
  lemma {:induction false} LastBits(h: PairHash, txids: seq<Hash>, match_: seq<bool>, height: nat)
    requires |txids| == |match_| > 0 && LastNode(|txids|, height) < Width(|txids|, height)
    ensures var code := Encode(h, txids, match_, height, LastNode(|txids|, height));
      |code.bits| == 2 * |code.hashes| - 1 + LonelyLevels(match_, height)
    decreases height
  {
    hide Width, Wanted, FirstLeaf, EndLeaf, LastNode, Encode, IsFull;
    var n, pos := |txids|, LastNode(|txids|, height);
    LastWanted(txids, match_, height);
    if Wanted(txids, match_, height, pos) == [] {
      EncodeStops(h, txids, match_, height, pos);
      NothingBelow(txids, match_, height);
    } else if height == 0 {
      EncodeStops(h, txids, match_, height, pos);
    } else {
      EncodeDescends(h, txids, match_, height, pos);
      LastChildren(n, height);
      LastWanted(txids, match_, height - 1);
      LastBits(h, txids, match_, height - 1);
      if 2 * pos + 1 == LastNode(n, height - 1) {
        FullBits(h, txids, match_, height - 1, 2 * pos);
      }
    }
  }

  /** The root is the last node of its level. */
  lemma RootIsLast(n: nat)
    requires n > 0
    ensures LastNode(n, TreeHeight(n)) == 0 < Width(n, TreeHeight(n))
  {
    OneRoot(n);
  }

  /** The exact number of flag bits: two for each stored hash, less one, and one more for each inner
      node on the way that has a single child. */
  lemma FlagBitCount(h: PairHash, txids: seq<Hash>, match_: seq<bool>)
    requires |txids| == |match_| > 0
    ensures var code := EncodeAll(h, txids, match_);
      |code.bits| == 2 * |code.hashes| - 1 + LonelyLevels(match_, TreeHeight(|txids|))
  {
    hide Width, Encode, TreeHeight, LonelyLevels;
    RootIsLast(|txids|);
    LastBits(h, txids, match_, TreeHeight(|txids|));
  }

  /** No chosen transaction lies below the last node of the level. */
  predicate AvoidsLastNode(match_: seq<bool>, height: nat)
    requires match_ != []
  {
    forall p | 0 <= p < |match_| && match_[p] :: p < FirstLeaf(height, LastNode(|match_|, height))
  }

  lemma LonelyMeans(match_: seq<bool>, height: nat)
    requires match_ != [] && height > 0
    ensures !LonelyLevel(match_, height) <==> Width(|match_|, height - 1) % 2 == 0 || AvoidsLastNode(match_, height)
  {
    hide Width, FirstLeaf, LastNode;
  }

  /** The documented bound of 2N - 1 flag bits for N hashes holds exactly when no chosen transaction
      lies below the last node of a level that follows a level of odd width. */
  lemma DocumentedBitBoundIff(h: PairHash, txids: seq<Hash>, match_: seq<bool>)
    requires |txids| == |match_| > 0
    ensures |EncodeAll(h, txids, match_).bits| <= 2 * |EncodeAll(h, txids, match_).hashes| - 1 <==>
      forall k | 0 < k <= TreeHeight(|txids|) :: Width(|txids|, k - 1) % 2 == 0 || AvoidsLastNode(match_, k)
  {
    hide *;
    FlagBitCount(h, txids, match_);
    NoLonelyLevels(match_, TreeHeight(|txids|));
    forall k | 0 < k <= TreeHeight(|txids|)
      ensures !LonelyLevel(match_, k) <==> Width(|txids|, k - 1) % 2 == 0 || AvoidsLastNode(match_, k)
    {
      LonelyMeans(match_, k);
    }
  }

  /** Five transactions with the last one chosen take five bits and two hashes. */
  lemma DocumentedBitBoundFails(h: PairHash, txids: seq<Hash>)
    requires |txids| == 5
    ensures var code := EncodeAll(h, txids, [false, false, false, false, true]);
      |code.bits| == 5 && |code.hashes| == 2
  {
    hide CalcHash;
    var m := [false, false, false, false, true];
    assert Width(5, 0) == 5 && Width(5, 1) == 3 && Width(5, 2) == 2 && Width(5, 3) == 1;
    assert Pow2(1) == 2 && Pow2(2) == 4 && Pow2(3) == 8;
    HeightIs(5, 3);
    hide Pow2, Width;
    assert AnyMatch(m, 0, 5) && AnyMatch(m, 4, 5) by {
      assert m[4];
    }
    assert !AnyMatch(m, 0, 4);
    assert Encode(h, txids, m, 0, 4).bits == [true] && |Encode(h, txids, m, 0, 4).hashes| == 1;
    assert Encode(h, txids, m, 1, 2).bits == [true, true] && |Encode(h, txids, m, 1, 2).hashes| == 1;
    assert Encode(h, txids, m, 2, 1).bits == [true, true, true] && |Encode(h, txids, m, 2, 1).hashes| == 1;
    assert Encode(h, txids, m, 2, 0).bits == [false] && |Encode(h, txids, m, 2, 0).hashes| == 1;
  }

  lemma {:induction false} WidthsFall(n: nat, j: nat, k: nat)
    requires j <= k
    ensures Width(n, k) <= Width(n, j) || Width(n, k) <= 1
    decreases k
  {
    if j < k {
      WidthsFall(n, j, k - 1);
    }
  }

  lemma HeightIs(n: nat, height: nat)
    requires Width(n, height) <= 1 && (height > 0 ==> Width(n, height - 1) > 1)
    ensures TreeHeight(n) == height
  {
    hide Width;
    if TreeHeight(n) < height {
      WidthsFall(n, TreeHeight(n), height - 1);
    }
  }

  // ---------------------------------------------------------------- counting hashes

  predicate Chosen(match_: seq<bool>, height: nat, pos: nat)
    requires pos < Width(|match_|, height)
  {
    NodeCovers(|match_|, height, pos);
    AnyMatch(match_, FirstLeaf(height, pos), EndLeaf(|match_|, height, pos))
  }

  /** How many of the first `m` nodes of a level have something chosen below them. */
  function Touched(match_: seq<bool>, height: nat, m: nat): nat
    requires m <= Width(|match_|, height)
    decreases m
  {
    if m == 0 then 0 else Touched(match_, height, m - 1) + if Chosen(match_, height, m - 1) then 1 else 0
  }

  lemma PairsFit(n: nat, height: nat)
    requires height > 0
    ensures Width(n, height - 1) / 2 <= Width(n, height)
  {
  }

  /** The inner nodes up to a level that the walk goes through and that have two children: on each
      level all nodes have two but, after a level of odd width, the last. */
  function TwoChildNodes(match_: seq<bool>, height: nat): nat
    decreases height
  {
    if height == 0 then 0
    else
      PairsFit(|match_|, height);
      TwoChildNodes(match_, height - 1) + Touched(match_, height, Width(|match_|, height - 1) / 2)
  }

  /** The hashes that would be stored for the first `m` nodes of a level. */
  function LevelHashes(h: PairHash, txids: seq<Hash>, match_: seq<bool>, height: nat, m: nat): nat
    requires |txids| == |match_| && m <= Width(|txids|, height)
    decreases m
  {
    if m == 0 then 0
    else LevelHashes(h, txids, match_, height, m - 1) + |Encode(h, txids, match_, height, m - 1).hashes|
  }

  lemma ChosenIsWanted(txids: seq<Hash>, match_: seq<bool>, height: nat, pos: nat)
    requires |txids| == |match_| && pos < Width(|txids|, height)
    ensures Chosen(match_, height, pos) <==> Wanted(txids, match_, height, pos) != []
  {
    NodeCovers(|txids|, height, pos);
    NoneMatched(txids, match_, FirstLeaf(height, pos), EndLeaf(|txids|, height, pos));
  }

  /** A node with two children stores what they store, or one hash instead of their two. */
  lemma TwoChildHashes(h: PairHash, txids: seq<Hash>, match_: seq<bool>, height: nat, pos: nat)
    requires |txids| == |match_| && height > 0 && 2 * pos + 1 < Width(|txids|, height - 1)
    ensures pos < Width(|txids|, height)
    ensures |Encode(h, txids, match_, height, pos).hashes| + (if Chosen(match_, height, pos) then 0 else 1) ==
      |Encode(h, txids, match_, height - 1, 2 * pos).hashes| +
        |Encode(h, txids, match_, height - 1, 2 * pos + 1).hashes|
  {
    LeftChildHasLeaf(|txids|, height, pos);
    hide Width, Wanted, Chosen, Encode, Pow2;
    ChosenIsWanted(txids, match_, height, pos);
    if Wanted(txids, match_, height, pos) != [] {
      EncodeDescends(h, txids, match_, height, pos);
    } else {
      WantedSplits(txids, match_, height, pos);
      EncodeStops(h, txids, match_, height, pos);
      EncodeStops(h, txids, match_, height - 1, 2 * pos);
      EncodeStops(h, txids, match_, height - 1, 2 * pos + 1);
    }
  }

  /** A node with a single child stores what that one does. */
  lemma OneChildHashes(h: PairHash, txids: seq<Hash>, match_: seq<bool>, height: nat, pos: nat)
    requires |txids| == |match_| && height > 0 && 2 * pos + 1 == Width(|txids|, height - 1)
    ensures pos < Width(|txids|, height)
    ensures |Encode(h, txids, match_, height, pos).hashes| == |Encode(h, txids, match_, height - 1, 2 * pos).hashes|
  {
    LeftChildHasLeaf(|txids|, height, pos);
    hide Width, Wanted, Encode, Pow2;
    if Wanted(txids, match_, height, pos) != [] {
      EncodeDescends(h, txids, match_, height, pos);
    } else {
      WantedSplits(txids, match_, height, pos);
      EncodeStops(h, txids, match_, height, pos);
      EncodeStops(h, txids, match_, height - 1, 2 * pos);
    }
  }

  /** Going up a level, each pair of nodes gives up a hash unless something below it is chosen. */
  lemma {:induction false} PairsOfLevel(h: PairHash, txids: seq<Hash>, match_: seq<bool>, height: nat, m: nat)
    requires |txids| == |match_| && height > 0 && m <= Width(|txids|, height - 1) / 2 <= Width(|txids|, height)
    ensures LevelHashes(h, txids, match_, height, m) + m ==
      LevelHashes(h, txids, match_, height - 1, 2 * m) + Touched(match_, height, m)
    decreases m
  {
    hide Width, Encode, Chosen;
    if m > 0 {
      PairsOfLevel(h, txids, match_, height, m - 1);
      TwoChildHashes(h, txids, match_, height, m - 1);
      assert LevelHashes(h, txids, match_, height - 1, 2 * m) == LevelHashes(h, txids, match_, height - 1, 2 * m - 1) +
        |Encode(h, txids, match_, height - 1, 2 * m - 1).hashes|;
      assert LevelHashes(h, txids, match_, height - 1, 2 * m - 1) ==
        LevelHashes(h, txids, match_, height - 1, 2 * m - 2) +
        |Encode(h, txids, match_, height - 1, 2 * m - 2).hashes|;
    }
  }

  lemma LevelUp(h: PairHash, txids: seq<Hash>, match_: seq<bool>, height: nat)
    requires |txids| == |match_| && height > 0
    ensures Width(|txids|, height - 1) / 2 <= Width(|txids|, height)
    ensures
      var n := |txids|;
      LevelHashes(h, txids, match_, height, Width(n, height)) + Width(n, height - 1) ==
        LevelHashes(h, txids, match_, height - 1, Width(n, height - 1)) + Width(n, height) +
        Touched(match_, height, Width(n, height - 1) / 2)
  {
    hide *;
    var below := Width(|txids|, height - 1);
    var m := below / 2;
    PairsFit(|txids|, height);
    HalfUp(|txids|, height);
    PairsOfLevel(h, txids, match_, height, m);
    if below % 2 == 1 {
      OneChildHashes(h, txids, match_, height, m);
      OneMoreNode(h, txids, match_, height - 1, 2 * m);
      OneMoreNode(h, txids, match_, height, m);
    }
  }

  lemma OneMoreNode(h: PairHash, txids: seq<Hash>, match_: seq<bool>, height: nat, m: nat)
    requires |txids| == |match_| && m < Width(|txids|, height)
    ensures LevelHashes(h, txids, match_, height, m + 1) ==
      LevelHashes(h, txids, match_, height, m) + |Encode(h, txids, match_, height, m).hashes|
  {
  }

  lemma HalfUp(n: nat, height: nat)
    requires height > 0
    ensures Width(n, height) == Width(n, height - 1) / 2 + Width(n, height - 1) % 2
  {
  }

  lemma {:induction false} LeafHashes(h: PairHash, txids: seq<Hash>, match_: seq<bool>, m: nat)
    requires |txids| == |match_| && m <= Width(|txids|, 0)
    ensures LevelHashes(h, txids, match_, 0, m) == m
    decreases m
  {
    hide Width, Encode;
    if m > 0 {
      LeafHashes(h, txids, match_, m - 1);
      EncodeStops(h, txids, match_, 0, m - 1);
    }
  }

  lemma {:induction false} AllLevels(h: PairHash, txids: seq<Hash>, match_: seq<bool>, height: nat)
    requires |txids| == |match_|
    ensures LevelHashes(h, txids, match_, height, Width(|txids|, height)) ==
      Width(|txids|, height) + TwoChildNodes(match_, height)
    decreases height
  {
    hide Width, LevelHashes, Touched;
    if height == 0 {
      LeafHashes(h, txids, match_, Width(|txids|, 0));
    } else {
      AllLevels(h, txids, match_, height - 1);
      LevelUp(h, txids, match_, height);
    }
  }

  /** The exact number of hashes: one, and one more for each inner node on the way that has two
      children. */
  lemma HashCount(h: PairHash, txids: seq<Hash>, match_: seq<bool>)
    requires |txids| == |match_| > 0
    ensures |EncodeAll(h, txids, match_).hashes| == 1 + TwoChildNodes(match_, TreeHeight(|txids|))
  {
    hide Width, Encode, TreeHeight, TwoChildNodes;
    OneRoot(|txids|);
    AllLevels(h, txids, match_, TreeHeight(|txids|));
    assert LevelHashes(h, txids, match_, TreeHeight(|txids|), 0) == 0;
  }

  // ---------------------------------------------------------------- counting bytes

  /** The length of the count in front of a list. */
  function CompactSize(n: nat): nat {
    if n < 253 then 1 else if n <= 0xFFFF then 3 else if n <= 0xFFFF_FFFF then 5 else 9
  }

  /** One byte, or a marker and the smallest of 2, 4 and 8 bytes that hold the number. */
  lemma CompactSizeIs(n: nat)
    ensures CompactSize(n) in {1, 3, 5, 9}
    ensures CompactSize(n) == 1 <==> n < 253
    ensures CompactSize(n) <= 3 <==> n < 0x1_0000
    ensures CompactSize(n) <= 5 <==> n < 0x1_0000_0000
  {
  }

  function FlagBytes(code: Encoding): nat {
    (|code.bits| + 7) / 8
  }

  /** The serialized tree: a count of four bytes, the hashes and the flag bytes, each list with its
      length in front. */
  function SerializedSize(code: Encoding): nat {
    4 + CompactSize(|code.hashes|) + 32 * |code.hashes| + CompactSize(FlagBytes(code)) + FlagBytes(code)
  }

  /** The documented guarantee, 10 + ceil(32.25 * N). */
  function GuaranteedSize(hashes: nat): nat {
    10 + 32 * hashes + (hashes + 3) / 4
  }

  lemma SizesCompared(hashes: nat, lonely: nat, bits: nat)
    requires 1 <= hashes <= MAX_TRANSACTIONS && lonely <= 15 && bits == 2 * hashes - 1 + lonely
    ensures var bytes := (bits + 7) / 8;
      (4 + CompactSize(hashes) + 32 * hashes + CompactSize(bytes) + bytes <= GuaranteedSize(hashes)) <==>
        (bytes < 253 || (2 * hashes + 6) % 8 + lonely < 8)
    ensures hashes <= 1000 ==> (bits + 7) / 8 < 253
    ensures lonely <= 1 ==> (2 * hashes + 6) % 8 + lonely < 8
  {
    var bytes, q, r := (bits + 7) / 8, (2 * hashes + 6) / 8, (2 * hashes + 6) % 8;
    assert (hashes + 3) / 4 == q;
    assert bits + 7 == 8 * q + (r + lonely);
    assert bytes == q + (r + lonely) / 8;
  }

  lemma HeightLimit(n: nat)
    requires 0 < n <= MAX_TRANSACTIONS
    ensures TreeHeight(n) <= 15
  {
    var height := TreeHeight(n);
    assert Pow2(15) == 32768;
    if height >= 16 {
      assert Width(n, height - 1) > 1;
      NodeHasLeaf(n, height - 1, 1);
      PowersGrow(15, height - 1);
    }
  }

  lemma {:induction false} PowersGrow(j: nat, k: nat)
    requires j <= k
    ensures Pow2(j) <= Pow2(k)
    decreases k
  {
    if j < k {
      PowersGrow(j, k - 1);
    }
  }

  lemma SizesAre(code: Encoding)
    ensures FlagBytes(code) == (|code.bits| + 7) / 8
    ensures SerializedSize(code) ==
      4 + CompactSize(|code.hashes|) + 32 * |code.hashes| + CompactSize(FlagBytes(code)) + FlagBytes(code)
  {
  }

  lemma HashesFit(h: PairHash, txids: seq<Hash>, match_: seq<bool>)
    requires |txids| == |match_| > 0
    ensures 1 <= |EncodeAll(h, txids, match_).hashes| <= |txids|
  {
    hide Width, Encode, TreeHeight, CalcHash;
    RootCovers(|txids|);
    EncodingSize(h, txids, match_, TreeHeight(|txids|), 0);
  }

  /** The number of hashes and of flag bits that a choice of transactions takes. */
  function HashesFor(match_: seq<bool>): nat
    requires match_ != []
  {
    1 + TwoChildNodes(match_, TreeHeight(|match_|))
  }

  function BitsFor(match_: seq<bool>): nat
    requires match_ != []
  {
    2 * HashesFor(match_) - 1 + LonelyLevels(match_, TreeHeight(|match_|))
  }

  /** The documented size holds exactly when the choice takes fewer than 253 flag bytes or the nodes
      with a single child cost no byte of their own. */
  lemma GuaranteeIff(h: PairHash, txids: seq<Hash>, match_: seq<bool>)
    requires |txids| == |match_| && 0 < |txids| <= 16_666
    ensures
      var code, lonely := EncodeAll(h, txids, match_), LonelyLevels(match_, TreeHeight(|txids|));
      && |code.hashes| == HashesFor(match_) && |code.bits| == BitsFor(match_)
      && (SerializedSize(code) <= GuaranteedSize(|code.hashes|) <==>
            (BitsFor(match_) + 7) / 8 < 253 || (2 * HashesFor(match_) + 6) % 8 + lonely < 8)
      && (|txids| <= 1000 || lonely <= 1 ==> SerializedSize(code) <= GuaranteedSize(|code.hashes|))
  {
    hide *;
    LimitIs();
    var n := |txids|;
    var code := EncodeAll(h, txids, match_);
    FlagBitCount(h, txids, match_);
    HashCount(h, txids, match_);
    SizesFor(match_);
    HeightLimit(n);
    HashesFit(h, txids, match_);
    SizesCompared(|code.hashes|, LonelyLevels(match_, TreeHeight(n)), |code.bits|);
    SizesAre(code);
  }

  lemma SizesFor(match_: seq<bool>)
    requires match_ != []
    ensures HashesFor(match_) == 1 + TwoChildNodes(match_, TreeHeight(|match_|))
    ensures BitsFor(match_) == 2 * HashesFor(match_) - 1 + LonelyLevels(match_, TreeHeight(|match_|))
  {
  }

  // ---------------------------------------------------------------- when everything is chosen

  predicate AllChosen(match_: seq<bool>) {
    forall p | 0 <= p < |match_| :: match_[p]
  }

  lemma AllWanted(txids: seq<Hash>, match_: seq<bool>, height: nat, pos: nat)
    requires |txids| == |match_| && pos < Width(|txids|, height) && AllChosen(match_)
    ensures Wanted(txids, match_, height, pos) != []
  {
    NodeCovers(|txids|, height, pos);
    NoneMatched(txids, match_, FirstLeaf(height, pos), EndLeaf(|txids|, height, pos));
    assert match_[FirstLeaf(height, pos)];
  }

  /** Then every leaf's hash is stored. */
  lemma {:induction false} AllStored(h: PairHash, txids: seq<Hash>, match_: seq<bool>, height: nat, pos: nat)
    requires |txids| == |match_| && pos < Width(|txids|, height) && AllChosen(match_)
    ensures |Encode(h, txids, match_, height, pos).hashes| == LeafCount(|txids|, height, pos)
    decreases height
  {
    hide *;
    AllWanted(txids, match_, height, pos);
    if height == 0 {
      EncodeStops(h, txids, match_, height, pos);
      OneLeaf(|txids|, pos);
    } else {
      EncodeDescends(h, txids, match_, height, pos);
      LeafCounts(|txids|, height, pos);
      AllStored(h, txids, match_, height - 1, 2 * pos);
      if 2 * pos + 1 < Width(|txids|, height - 1) {
        AllStored(h, txids, match_, height - 1, 2 * pos + 1);
      }
    }
  }

  lemma OneLeaf(n: nat, pos: nat)
    requires pos < Width(n, 0)
    ensures LeafCount(n, 0, pos) == 1
  {
    LeafRange(n, pos);
  }

  lemma AllLonely(match_: seq<bool>, height: nat)
    requires match_ != [] && AllChosen(match_) && height > 0
    ensures LonelyLevel(match_, height) <==> Width(|match_|, height - 1) % 2 == 1
  {
    var pos := LastNode(|match_|, height);
    NodeHasLeaf(|match_|, height, pos);
    assert match_[FirstLeaf(height, pos)];
  }

  /** A block of 1028 transactions that are all chosen takes one byte more than documented. */
  lemma GuaranteeFails(h: PairHash, txids: seq<Hash>, match_: seq<bool>)
    requires |txids| == |match_| == 1028 && AllChosen(match_)
    ensures var code := EncodeAll(h, txids, match_);
      |code.hashes| == 1028 && SerializedSize(code) == GuaranteedSize(1028) + 1
  {
    hide Encode, LonelyLevel, LonelyLevels, TreeHeight, Width;
    LonelyOf1028(match_);
    RootCovers(1028);
    AllStored(h, txids, match_, TreeHeight(1028), 0);
    FlagBitCount(h, txids, match_);
  }

  lemma WidthsOf1028()
    ensures Width(1028, 0) == 1028 && Width(1028, 1) == 514 && Width(1028, 2) == 257 && Width(1028, 3) == 129
    ensures Width(1028, 4) == 65 && Width(1028, 5) == 33 && Width(1028, 6) == 17 && Width(1028, 7) == 9
    ensures Width(1028, 8) == 5 && Width(1028, 9) == 3 && Width(1028, 10) == 2 && Width(1028, 11) == 1
  {
    assert Width(1028, 2) == 257;
    assert Width(1028, 4) == 65;
    assert Width(1028, 6) == 17;
    assert Width(1028, 8) == 5;
    assert Width(1028, 10) == 2;
  }

  lemma LonelyOf1028(match_: seq<bool>)
    requires |match_| == 1028 && AllChosen(match_)
    ensures TreeHeight(1028) == 11 && LonelyLevels(match_, 11) == 8
  {
    hide LonelyLevel, Width, TreeHeight;
    WidthsOf1028();
    HeightIs(1028, 11);
    forall k: nat | 0 < k
      ensures LonelyLevel(match_, k) <==> Width(1028, k - 1) % 2 == 1
    {
      AllLonely(match_, k);
    }
    assert LonelyLevels(match_, 2) == 0;
    assert LonelyLevels(match_, 4) == 2;
    assert LonelyLevels(match_, 6) == 4;
    assert LonelyLevels(match_, 8) == 6;
    assert LonelyLevels(match_, 10) == 8;
  }
}
