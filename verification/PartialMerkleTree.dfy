/** Partial Merkle trees: a list of hashes and flag bits that proves some transactions of a block. */
module PartialMerkleTrees {
  import opened Arithmetic
  import opened FlagBits
  import opened MerkleTrees
  import opened Transactions

  const MAX_BLOCK_SIZE: nat := 1000000

  // ---------------------------------------------------------------- leaves below a node

  function FirstLeaf(height: nat, pos: nat): nat {
    pos * Pow2(height)
  }

  /** One past the last leaf below a node. */
  function EndLeaf(n: nat, height: nat, pos: nat): nat {
    MinNat((pos + 1) * Pow2(height), n)
  }

  predicate AnyMatch(match_: seq<bool>, lo: nat, hi: nat)
    requires hi <= |match_|
  {
    exists p :: lo <= p < hi && match_[p]
  }

  /** The matched transactions among the leaves from `lo` to `hi`, in order. */
  function Matched(txids: seq<Hash>, match_: seq<bool>, lo: nat, hi: nat): seq<Hash>
    requires hi <= |txids| == |match_|
    decreases hi - lo
  {
    if lo >= hi then []
    else (if match_[lo] then [txids[lo]] else []) + Matched(txids, match_, lo + 1, hi)
  }

  /** The matched transactions below a node. */
  function Wanted(txids: seq<Hash>, match_: seq<bool>, height: nat, pos: nat): seq<Hash>
    requires |txids| == |match_|
  {
    Matched(txids, match_, FirstLeaf(height, pos), EndLeaf(|txids|, height, pos))
  }

  lemma {:induction false} MatchedSplits(txids: seq<Hash>, match_: seq<bool>, lo: nat, mid: nat, hi: nat)
    requires lo <= mid <= hi <= |txids| == |match_|
    ensures Matched(txids, match_, lo, hi) == Matched(txids, match_, lo, mid) + Matched(txids, match_, mid, hi)
    decreases mid - lo
  {
    if lo < mid {
      MatchedSplits(txids, match_, lo + 1, mid, hi);
    }
  }

  lemma {:induction false} NoneMatched(txids: seq<Hash>, match_: seq<bool>, lo: nat, hi: nat)
    requires hi <= |txids| == |match_|
    ensures AnyMatch(match_, lo, hi) <==> Matched(txids, match_, lo, hi) != []
    decreases hi - lo
  {
    if lo < hi {
      NoneMatched(txids, match_, lo + 1, hi);
      if AnyMatch(match_, lo, hi) && !match_[lo] {
        var p :| lo <= p < hi && match_[p];
        assert lo + 1 <= p;
      }
    }
  }

  lemma ChildBounds(p: nat, pos: nat)
    ensures (2 * pos) * p == pos * (2 * p)
    ensures (2 * pos + 1) * p == pos * (2 * p) + p
    ensures (2 * pos + 1 + 1) * p == (pos + 1) * (2 * p) == pos * (2 * p) + 2 * p
  {
    assert (2 * pos) * p == pos * (2 * p);
    assert (2 * pos + 1) * p == (2 * pos) * p + p;
    assert (2 * pos + 2) * p == (2 * pos + 1) * p + p;
    assert (pos + 1) * (2 * p) == (2 * pos + 2) * p;
  }

  /** The leaves below a node are those below its left child and then those below its right one. */
  lemma ChildLeaves(n: nat, height: nat, pos: nat)
    requires height > 0 && pos < Width(n, height)
    ensures 2 * pos < Width(n, height - 1)
    ensures FirstLeaf(height, pos) == FirstLeaf(height - 1, 2 * pos) < EndLeaf(n, height - 1, 2 * pos)
    ensures 2 * pos + 1 < Width(n, height - 1) ==>
      && EndLeaf(n, height - 1, 2 * pos) == FirstLeaf(height - 1, 2 * pos + 1) < EndLeaf(n, height - 1, 2 * pos + 1)
      && EndLeaf(n, height - 1, 2 * pos + 1) == EndLeaf(n, height, pos)
    ensures 2 * pos + 1 >= Width(n, height - 1) ==> EndLeaf(n, height - 1, 2 * pos) == EndLeaf(n, height, pos)
  {
    var p := Pow2(height - 1);
    assert Pow2(height) == 2 * p;
    NodeHasLeaf(n, height, pos);
    NodeHasLeaf(n, height - 1, 2 * pos);
    NodeHasLeaf(n, height - 1, 2 * pos + 1);
    hide Pow2, Width;
    ChildBounds(p, pos);
  }

  lemma NodeCovers(n: nat, height: nat, pos: nat)
    requires pos < Width(n, height)
    ensures FirstLeaf(height, pos) < EndLeaf(n, height, pos) <= n
  {
    NodeHasLeaf(n, height, pos);
    assert (pos + 1) * Pow2(height) == pos * Pow2(height) + Pow2(height);
  }

  // ---------------------------------------------------------------- building

  datatype Encoding = Encoding(bits: seq<bool>, hashes: seq<Hash>)

  /** Flag bits and hashes of the nodes visited from a node downwards, depth first. */
  function Encode(h: PairHash, txids: seq<Hash>, match_: seq<bool>, height: nat, pos: nat): Encoding
    requires |txids| == |match_| && pos < Width(|txids|, height)
    decreases height
  {
    NodeCovers(|txids|, height, pos);
    var parent := AnyMatch(match_, FirstLeaf(height, pos), EndLeaf(|txids|, height, pos));
    if height == 0 || !parent then Encoding([parent], [CalcHash(h, txids, height, pos)])
    else
      var left := Encode(h, txids, match_, height - 1, 2 * pos);
      if 2 * pos + 1 < Width(|txids|, height - 1) then
        var right := Encode(h, txids, match_, height - 1, 2 * pos + 1);
        Encoding([parent] + left.bits + right.bits, left.hashes + right.hashes)
      else Encoding([parent] + left.bits, left.hashes)
  }

  // ---------------------------------------------------------------- extracting

  /** The state of an extraction after visiting a node: its hash, how many flag bits and hashes were
      used, the matches found so far, and whether the data ran out. */
  datatype Extraction = Extraction(hash: Hash, nBitsUsed: nat, nHashUsed: nat, matches: seq<Hash>, bad: bool)

  function Extract(h: PairHash, n: nat, bits: seq<bool>, hashes: seq<Hash>, height: nat, pos: nat, nBitsUsed: nat,
                   nHashUsed: nat): (e: Extraction)
    ensures |bits| >= nBitsUsed ==> nBitsUsed <= e.nBitsUsed <= |bits|
    decreases height
  {
    if nBitsUsed >= |bits| then Extraction(0, nBitsUsed, nHashUsed, [], true)
    else
      var parent := bits[nBitsUsed];
      if height == 0 || !parent then
        if nHashUsed >= |hashes| then Extraction(0, nBitsUsed + 1, nHashUsed, [], true)
        else
          var hash := hashes[nHashUsed];
          Extraction(hash, nBitsUsed + 1, nHashUsed + 1, if height == 0 && parent then [hash] else [], false)
      else
        var left := Extract(h, n, bits, hashes, height - 1, 2 * pos, nBitsUsed + 1, nHashUsed);
        if 2 * pos + 1 < Width(n, height - 1) then
          var right := Extract(h, n, bits, hashes, height - 1, 2 * pos + 1, left.nBitsUsed, left.nHashUsed);
          Extraction(h(left.hash, right.hash), right.nBitsUsed, right.nHashUsed,
                     left.matches + right.matches, left.bad || right.bad)
        else Extraction(h(left.hash, left.hash), left.nBitsUsed, left.nHashUsed, left.matches, left.bad)
  }

  /** What ExtractMatches returns: a root, or 0 when the data is unusable, and the matches found. */
  datatype Extracted = Extracted(root: Hash, matches: seq<Hash>)

  predicate Plausible(n: nat, bits: seq<bool>, hashes: seq<Hash>) {
    n != 0 && n <= MAX_BLOCK_SIZE / 60 && |hashes| <= n && |bits| >= |hashes|
  }

  function ExtractAll(h: PairHash, n: nat, bits: seq<bool>, hashes: seq<Hash>, wasBad: bool): Extracted {
    if !Plausible(n, bits, hashes) then Extracted(0, [])
    else
      var e := Extract(h, n, bits, hashes, TreeHeight(n), 0, 0, 0);
      if wasBad || e.bad || (e.nBitsUsed + 7) / 8 != (|bits| + 7) / 8 || e.nHashUsed != |hashes| then
        Extracted(0, e.matches)
      else Extracted(e.hash, e.matches)
  }

  // ---------------------------------------------------------------- nothing left over

  /** An extraction that succeeds does not look beyond what it uses. */
  lemma {:induction false} ExtractIgnoresRest(h: PairHash, n: nat, bits: seq<bool>, hashes: seq<Hash>, height: nat,
                                              pos: nat, nb: nat, nh: nat, bits': seq<bool>, hashes': seq<Hash>)
    requires bits <= bits' && hashes <= hashes' && !Extract(h, n, bits, hashes, height, pos, nb, nh).bad
    ensures Extract(h, n, bits', hashes', height, pos, nb, nh) == Extract(h, n, bits, hashes, height, pos, nb, nh)
    decreases height
  {
    hide Width;
    if height > 0 && bits[nb] {
      ExtractIgnoresRest(h, n, bits, hashes, height - 1, 2 * pos, nb + 1, nh, bits', hashes');
      if 2 * pos + 1 < Width(n, height - 1) {
        var left := Extract(h, n, bits, hashes, height - 1, 2 * pos, nb + 1, nh);
        ExtractIgnoresRest(h, n, bits, hashes, height - 1, 2 * pos + 1, left.nBitsUsed, left.nHashUsed, bits', hashes');
      }
    }
  }

  /** Data that gives a root is used up: to the last hash, and to the last byte of flag bits. */
  lemma AcceptedUsesAll(h: PairHash, n: nat, bits: seq<bool>, hashes: seq<Hash>)
    requires ExtractAll(h, n, bits, hashes, false).root != 0
    ensures var e := Extract(h, n, bits, hashes, TreeHeight(n), 0, 0, 0);
      !e.bad && e.nHashUsed == |hashes| && e.nBitsUsed <= |bits| < e.nBitsUsed + 8
  {
    hide Extract, TreeHeight;
  }

  /** So the same data with more hashes, or with more bytes of flag bits, gives none. */
  lemma SurplusIsRefused(h: PairHash, n: nat, bits: seq<bool>, hashes: seq<Hash>, bits': seq<bool>,
                         hashes': seq<Hash>)
    requires ExtractAll(h, n, bits, hashes, false).root != 0 && bits <= bits' && hashes <= hashes'
    requires |hashes'| > |hashes| || (|bits'| + 7) / 8 > (|bits| + 7) / 8
    ensures ExtractAll(h, n, bits', hashes', false).root == 0
  {
    hide Extract, TreeHeight;
    ExtractIgnoresRest(h, n, bits, hashes, TreeHeight(n), 0, 0, 0, bits', hashes');
  }

  // ---------------------------------------------------------------- round trip

  predicate HasAt<T(==)>(s: seq<T>, i: nat, part: seq<T>) {
    i + |part| <= |s| && s[i..i + |part|] == part
  }

  lemma HasAtSplits<T>(s: seq<T>, i: nat, a: seq<T>, b: seq<T>)
    requires HasAt(s, i, a + b)
    ensures HasAt(s, i, a) && HasAt(s, i + |a|, b)
  {
    assert s[i..i + |a|] == s[i..i + |a + b|][..|a|] == a;
    assert s[i + |a|..i + |a| + |b|] == s[i..i + |a + b|][|a|..] == b;
  }

  lemma ExtractRunsOut(h: PairHash, n: nat, bits: seq<bool>, hashes: seq<Hash>, height: nat, pos: nat, nb: nat, nh: nat)
    requires nb >= |bits| || (nh >= |hashes| && (height == 0 || !bits[nb]))
    ensures Extract(h, n, bits, hashes, height, pos, nb, nh) ==
      Extraction(0, if nb >= |bits| then nb else nb + 1, nh, [], true)
  {
  }

  lemma ExtractStops(h: PairHash, n: nat, bits: seq<bool>, hashes: seq<Hash>, height: nat, pos: nat, nb: nat, nh: nat)
    requires nb < |bits| && nh < |hashes| && (height == 0 || !bits[nb])
    ensures Extract(h, n, bits, hashes, height, pos, nb, nh) ==
            Extraction(hashes[nh], nb + 1, nh + 1, if height == 0 && bits[nb] then [hashes[nh]] else [], false)
  {
  }

  lemma ExtractDescends(h: PairHash, n: nat, bits: seq<bool>, hashes: seq<Hash>, height: nat, pos: nat, nb: nat,
                        nh: nat)
    requires nb < |bits| && height > 0 && bits[nb]
    ensures var left := Extract(h, n, bits, hashes, height - 1, 2 * pos, nb + 1, nh);
      Extract(h, n, bits, hashes, height, pos, nb, nh) ==
      if 2 * pos + 1 < Width(n, height - 1) then
        var right := Extract(h, n, bits, hashes, height - 1, 2 * pos + 1, left.nBitsUsed, left.nHashUsed);
        Extraction(h(left.hash, right.hash), right.nBitsUsed, right.nHashUsed,
                   left.matches + right.matches, left.bad || right.bad)
      else Extraction(h(left.hash, left.hash), left.nBitsUsed, left.nHashUsed, left.matches, left.bad)
  {
  }

  lemma EncodeStops(h: PairHash, txids: seq<Hash>, match_: seq<bool>, height: nat, pos: nat)
    requires |txids| == |match_| && pos < Width(|txids|, height)
    requires height == 0 || Wanted(txids, match_, height, pos) == []
    ensures Encode(h, txids, match_, height, pos) ==
            Encoding([Wanted(txids, match_, height, pos) != []], [CalcHash(h, txids, height, pos)])
    ensures height == 0 ==>
      Wanted(txids, match_, height, pos) == if match_[pos] then [CalcHash(h, txids, 0, pos)] else []
  {
    hide Width, Pow2, CalcHash;
    NodeCovers(|txids|, height, pos);
    NoneMatched(txids, match_, FirstLeaf(height, pos), EndLeaf(|txids|, height, pos));
    if height == 0 {
      LeafRange(|txids|, pos);
      LeafHash(h, txids, pos);
      assert Matched(txids, match_, pos + 1, pos + 1) == [];
    }
  }

  lemma LeafHash(h: PairHash, txids: seq<Hash>, pos: nat)
    requires pos < Width(|txids|, 0)
    ensures pos < |txids| && CalcHash(h, txids, 0, pos) == txids[pos]
  {
  }

  lemma EncodeDescends(h: PairHash, txids: seq<Hash>, match_: seq<bool>, height: nat, pos: nat)
    requires |txids| == |match_| && pos < Width(|txids|, height)
    requires height > 0 && Wanted(txids, match_, height, pos) != []
    ensures 2 * pos < Width(|txids|, height - 1)
    ensures var code, left := Encode(h, txids, match_, height, pos), Encode(h, txids, match_, height - 1, 2 * pos);
      if 2 * pos + 1 < Width(|txids|, height - 1) then
        var right := Encode(h, txids, match_, height - 1, 2 * pos + 1);
        code.bits == [true] + (left.bits + right.bits) && code.hashes == left.hashes + right.hashes
      else code.bits == [true] + left.bits && code.hashes == left.hashes
  {
    hide Width, Pow2, CalcHash, Matched;
    NodeCovers(|txids|, height, pos);
    NoneMatched(txids, match_, FirstLeaf(height, pos), EndLeaf(|txids|, height, pos));
    ChildLeaves(|txids|, height, pos);
  }

  /** What is wanted below a node is what is wanted below its children. */
  lemma WantedSplits(txids: seq<Hash>, match_: seq<bool>, height: nat, pos: nat)
    requires |txids| == |match_| && height > 0 && pos < Width(|txids|, height)
    ensures 2 * pos < Width(|txids|, height - 1)
    ensures Wanted(txids, match_, height, pos) ==
      if 2 * pos + 1 < Width(|txids|, height - 1) then
        Wanted(txids, match_, height - 1, 2 * pos) + Wanted(txids, match_, height - 1, 2 * pos + 1)
      else Wanted(txids, match_, height - 1, 2 * pos)
  {
    hide Width, Pow2, Matched;
    var n := |txids|;
    NodeCovers(n, height, pos);
    ChildLeaves(n, height, pos);
    if 2 * pos + 1 < Width(n, height - 1) {
      MatchedSplits(txids, match_, FirstLeaf(height, pos), EndLeaf(n, height - 1, 2 * pos), EndLeaf(n, height, pos));
    }
  }

  lemma HashOfChildren(h: PairHash, txids: seq<Hash>, height: nat, pos: nat)
    requires height > 0 && pos < Width(|txids|, height)
    ensures 2 * pos < Width(|txids|, height - 1)
    ensures var left := CalcHash(h, txids, height - 1, 2 * pos);
      CalcHash(h, txids, height, pos) ==
      if 2 * pos + 1 < Width(|txids|, height - 1) then h(left, CalcHash(h, txids, height - 1, 2 * pos + 1))
        else h(left, left)
  {
  }

  lemma StartsWith<T>(s: seq<T>, i: nat, part: seq<T>)
    requires HasAt(s, i, part) && part != []
    ensures i < |s| && s[i] == part[0]
  {
    assert s[i] == s[i..i + |part|][0];
  }

  lemma CodesApart(bits: seq<bool>, nb: nat, left: seq<bool>, right: seq<bool>)
    requires HasAt(bits, nb, [true] + (left + right))
    ensures HasAt(bits, nb, [true]) && HasAt(bits, nb + 1, left) && HasAt(bits, nb + 1 + |left|, right)
  {
    hide HasAt;
    HasAtSplits(bits, nb, [true], left + right);
    HasAtSplits(bits, nb + 1, left, right);
  }

  /** Extracting what building wrote gives the node's hash and exactly the matches below it. */
  lemma {:induction false} ExtractUndoesEncode(h: PairHash, txids: seq<Hash>, match_: seq<bool>, height: nat, pos: nat,
                                               bits: seq<bool>, hashes: seq<Hash>, nb: nat, nh: nat)
    requires |txids| == |match_| && pos < Width(|txids|, height)
    requires HasAt(bits, nb, Encode(h, txids, match_, height, pos).bits)
    requires HasAt(hashes, nh, Encode(h, txids, match_, height, pos).hashes)
    ensures var code := Encode(h, txids, match_, height, pos);
      Extract(h, |txids|, bits, hashes, height, pos, nb, nh) ==
      Extraction(CalcHash(h, txids, height, pos), nb + |code.bits|, nh + |code.hashes|,
                 Wanted(txids, match_, height, pos), false)
    decreases height
  {
    hide *;
    var n := |txids|;
    if height == 0 || Wanted(txids, match_, height, pos) == [] {
      EncodeStops(h, txids, match_, height, pos);
      StartsWith(bits, nb, [Wanted(txids, match_, height, pos) != []]);
      StartsWith(hashes, nh, [CalcHash(h, txids, height, pos)]);
      ExtractStops(h, n, bits, hashes, height, pos, nb, nh);
    } else {
      EncodeDescends(h, txids, match_, height, pos);
      WantedSplits(txids, match_, height, pos);
      HashOfChildren(h, txids, height, pos);
      var left := Encode(h, txids, match_, height - 1, 2 * pos);
      if 2 * pos + 1 < Width(n, height - 1) {
        var right := Encode(h, txids, match_, height - 1, 2 * pos + 1);
        CodesApart(bits, nb, left.bits, right.bits);
        HasAtSplits(hashes, nh, left.hashes, right.hashes);
        ExtractUndoesEncode(h, txids, match_, height - 1, 2 * pos, bits, hashes, nb + 1, nh);
        ExtractUndoesEncode(h, txids, match_, height - 1, 2 * pos + 1, bits, hashes, nb + 1 + |left.bits|,
                            nh + |left.hashes|);
      } else {
        HasAtSplits(bits, nb, [true], left.bits);
        ExtractUndoesEncode(h, txids, match_, height - 1, 2 * pos, bits, hashes, nb + 1, nh);
      }
      StartsWith(bits, nb, [true]);
      ExtractDescends(h, n, bits, hashes, height, pos, nb, nh);
    }
  }

  lemma LeafRange(n: nat, pos: nat)
    requires pos < Width(n, 0)
    ensures FirstLeaf(0, pos) == pos && EndLeaf(n, 0, pos) == pos + 1
  {
    assert pos * 1 == pos && (pos + 1) * 1 == pos + 1;
  }

  // ---------------------------------------------------------------- size

  /** Leaves below a node. */
  function LeafCount(n: nat, height: nat, pos: nat): nat
    requires pos < Width(n, height)
  {
    NodeCovers(n, height, pos);
    EndLeaf(n, height, pos) - FirstLeaf(height, pos)
  }

  lemma LeafCounts(n: nat, height: nat, pos: nat)
    requires height > 0 && pos < Width(n, height)
    ensures 2 * pos < Width(n, height - 1)
    ensures LeafCount(n, height, pos) == LeafCount(n, height - 1, 2 * pos) +
      if 2 * pos + 1 < Width(n, height - 1) then LeafCount(n, height - 1, 2 * pos + 1) else 0
  {
    hide Width, Pow2, FirstLeaf, EndLeaf;
    ChildLeaves(n, height, pos);
  }

  lemma LeafCountPositive(n: nat, height: nat, pos: nat)
    requires pos < Width(n, height)
    ensures LeafCount(n, height, pos) >= 1
  {
    NodeCovers(n, height, pos);
  }

  lemma Distribute(a: nat, b: nat, k: nat)
    ensures (a + b) * k == a * k + b * k && a * (k + 1) == a * k + a && b * (k + 1) == b * k + b
    ensures (a + b) * (k + 1) == a * k + b * k + a + b
  {
    assert (a + b) * (k + 1) == (a + b) * k + (a + b);
  }

  /** No more hashes than leaves, nor than one for each level above each match, plus one; at least
      as many flag bits. */
  lemma {:induction false} EncodingSize(h: PairHash, txids: seq<Hash>, match_: seq<bool>, height: nat, pos: nat)
    requires |txids| == |match_| && pos < Width(|txids|, height)
    ensures var code := Encode(h, txids, match_, height, pos);
      && 1 <= |code.hashes| <= LeafCount(|txids|, height, pos)
      && |code.hashes| <= 1 + |Wanted(txids, match_, height, pos)| * height
      && |code.hashes| <= |code.bits|
    decreases height
  {
    hide *;
    var n := |txids|;
    var m := |Wanted(txids, match_, height, pos)|;
    if height == 0 || m == 0 {
      EncodeStops(h, txids, match_, height, pos);
      LeafCountPositive(n, height, pos);
      Distribute(m, 0, height);
    } else {
      EncodeDescends(h, txids, match_, height, pos);
      WantedSplits(txids, match_, height, pos);
      LeafCounts(n, height, pos);
      EncodingSize(h, txids, match_, height - 1, 2 * pos);
      var ml := |Wanted(txids, match_, height - 1, 2 * pos)|;
      if 2 * pos + 1 < Width(n, height - 1) {
        EncodingSize(h, txids, match_, height - 1, 2 * pos + 1);
        Distribute(ml, |Wanted(txids, match_, height - 1, 2 * pos + 1)|, height - 1);
      } else {
        Distribute(ml, 0, height - 1);
      }
    }
  }

  // ---------------------------------------------------------------- soundness

  /** The leaves that an extraction reports as matched. */
  function Claimed(h: PairHash, n: nat, bits: seq<bool>, hashes: seq<Hash>, height: nat, pos: nat, nBitsUsed: nat,
                   nHashUsed: nat): seq<nat>
    decreases height
  {
    if nBitsUsed >= |bits| then []
    else if height == 0 || !bits[nBitsUsed] then
      if nHashUsed < |hashes| && height == 0 && bits[nBitsUsed] then [pos] else []
    else
      var left := Extract(h, n, bits, hashes, height - 1, 2 * pos, nBitsUsed + 1, nHashUsed);
      Claimed(h, n, bits, hashes, height - 1, 2 * pos, nBitsUsed + 1, nHashUsed) +
      if 2 * pos + 1 < Width(n, height - 1) then
        Claimed(h, n, bits, hashes, height - 1, 2 * pos + 1, left.nBitsUsed, left.nHashUsed)
      else []
  }

  predicate Increasing(s: seq<nat>, lo: nat, hi: nat) {
    && (forall i | 0 <= i < |s| :: lo <= s[i] < hi)
    && (forall i, j | 0 <= i < j < |s| :: s[i] < s[j])
  }

  lemma IncreasingJoins(a: seq<nat>, b: seq<nat>, lo: nat, mid: nat, hi: nat)
    requires Increasing(a, lo, mid) && Increasing(b, mid, hi) && lo <= mid <= hi
    ensures Increasing(a + b, lo, hi)
  {
  }

  lemma {:induction false} ClaimedInOrder(h: PairHash, n: nat, bits: seq<bool>, hashes: seq<Hash>, height: nat,
                                          pos: nat, nb: nat, nh: nat)
    requires pos < Width(n, height)
    ensures Increasing(Claimed(h, n, bits, hashes, height, pos, nb, nh), FirstLeaf(height, pos),
                       EndLeaf(n, height, pos))
    ensures |Claimed(h, n, bits, hashes, height, pos, nb, nh)| ==
      |Extract(h, n, bits, hashes, height, pos, nb, nh).matches|
    decreases height
  {
    hide Width, Pow2;
    NodeCovers(n, height, pos);
    if height > 0 && nb < |bits| && bits[nb] {
      ChildLeaves(n, height, pos);
      var left := Extract(h, n, bits, hashes, height - 1, 2 * pos, nb + 1, nh);
      var mid := EndLeaf(n, height - 1, 2 * pos);
      ClaimedInOrder(h, n, bits, hashes, height - 1, 2 * pos, nb + 1, nh);
      var a := Claimed(h, n, bits, hashes, height - 1, 2 * pos, nb + 1, nh);
      var b := [];
      if 2 * pos + 1 < Width(n, height - 1) {
        ClaimedInOrder(h, n, bits, hashes, height - 1, 2 * pos + 1, left.nBitsUsed, left.nHashUsed);
        b := Claimed(h, n, bits, hashes, height - 1, 2 * pos + 1, left.nBitsUsed, left.nHashUsed);
      }
      IncreasingJoins(a, b, FirstLeaf(height, pos), mid, EndLeaf(n, height, pos));
    } else if height == 0 {
      LeafRange(n, pos);
    }
  }

  predicate AreAt(matches: seq<Hash>, positions: seq<nat>, txids: seq<Hash>) {
    |matches| == |positions| && forall i | 0 <= i < |matches| ::
      positions[i] < |txids| && matches[i] == txids[positions[i]]
  }

  lemma AreAtJoins(a: seq<Hash>, p: seq<nat>, b: seq<Hash>, q: seq<nat>, txids: seq<Hash>)
    requires AreAt(a, p, txids) && AreAt(b, q, txids)
    ensures AreAt(a + b, p + q, txids)
  {
  }

  /** When a node's extracted hash is the true one, what was extracted below it is true as well. */
  lemma {:induction false} ExtractedIsTrue(h: PairHash, txids: seq<Hash>, bits: seq<bool>, hashes: seq<Hash>,
                                           height: nat, pos: nat, nb: nat, nh: nat)
    requires NoSecondPreimage(h, txids) && pos < Width(|txids|, height)
    requires !Extract(h, |txids|, bits, hashes, height, pos, nb, nh).bad
    requires Extract(h, |txids|, bits, hashes, height, pos, nb, nh).hash == CalcHash(h, txids, height, pos)
    ensures AreAt(Extract(h, |txids|, bits, hashes, height, pos, nb, nh).matches,
                  Claimed(h, |txids|, bits, hashes, height, pos, nb, nh), txids)
    decreases height
  {
    hide Width, Pow2;
    var n := |txids|;
    if height == 0 {
      LeafWidth(n);
    } else if bits[nb] {
      ChildLeaves(n, height, pos);
      var left := Extract(h, n, bits, hashes, height - 1, 2 * pos, nb + 1, nh);
      ExtractedIsTrue(h, txids, bits, hashes, height - 1, 2 * pos, nb + 1, nh);
      if 2 * pos + 1 < Width(n, height - 1) {
        var right := Extract(h, n, bits, hashes, height - 1, 2 * pos + 1, left.nBitsUsed, left.nHashUsed);
        ExtractedIsTrue(h, txids, bits, hashes, height - 1, 2 * pos + 1, left.nBitsUsed, left.nHashUsed);
        AreAtJoins(left.matches, Claimed(h, n, bits, hashes, height - 1, 2 * pos, nb + 1, nh),
                   right.matches, Claimed(h, n, bits, hashes, height - 1, 2 * pos + 1, left.nBitsUsed, left.nHashUsed),
                   txids);
      }
    }
  }

  lemma LeafWidth(n: nat)
    ensures Width(n, 0) == n
  {
  }

  /** Whatever flag bits and hashes are offered: if they lead to the root of a block, and that is
      not the 0 that also means failure, the matches are transactions of the block, in order and
      each at its own position. */
  lemma ExtractionIsSound(h: PairHash, txids: seq<Hash>, bits: seq<bool>, hashes: seq<Hash>, wasBad: bool)
    returns (positions: seq<nat>)
    requires NoSecondPreimage(h, txids) && MerkleRoot(h, txids) != 0
    requires ExtractAll(h, |txids|, bits, hashes, wasBad).root == MerkleRoot(h, txids)
    ensures Increasing(positions, 0, |txids|)
    ensures AreAt(ExtractAll(h, |txids|, bits, hashes, wasBad).matches, positions, txids)
  {
    hide Width, Extract, Claimed, CalcHash;
    var n := |txids|;
    OneRoot(n);
    positions := Claimed(h, n, bits, hashes, TreeHeight(n), 0, 0, 0);
    ExtractedIsTrue(h, txids, bits, hashes, TreeHeight(n), 0, 0, 0);
    ClaimedInOrder(h, n, bits, hashes, TreeHeight(n), 0, 0, 0);
  }

  /** The reported matches are transactions of the block, in order. */
  ghost predicate TrulyThere(matches: seq<Hash>, txids: seq<Hash>) {
    exists positions: seq<nat> :: Increasing(positions, 0, |txids|) && AreAt(matches, positions, txids)
  }

  /** Flag bits that lead to the first leaf, and then claim nothing. */
  function FirstLeafBits(height: nat): seq<bool> {
    seq(height + 1, _ => true) + seq(8, _ => false)
  }

  /** Going down to the first leaf reports whatever hash is offered, and uses it up. */
  lemma {:induction false} FirstLeafIsReported(h: PairHash, n: nat, invented: Hash, top: nat, height: nat)
    requires height <= top && n > 0
    ensures var e := Extract(h, n, FirstLeafBits(top), [invented], height, 0, top - height, 0);
      && e.matches == [invented] && e.nHashUsed == 1 && e.nBitsUsed >= top + 1 && (n > 1 && height > 0 ==> e.bad)
      && (height == 0 ==> e.nBitsUsed == top + 1)
    decreases height
  {
    hide Extract, Width;
    var bits := FirstLeafBits(top);
    if height == 0 {
      ExtractStops(h, n, bits, [invented], 0, 0, top, 0);
    } else {
      FirstLeafIsReported(h, n, invented, top, height - 1);
      ExtractDescends(h, n, bits, [invented], height, 0, top - height, 0);
      var left := Extract(h, n, bits, [invented], height - 1, 0, top - height + 1, 0);
      LeafWidth(n);
      if 1 < Width(n, height - 1) {
        ExtractRunsOut(h, n, bits, [invented], height - 1, 1, left.nBitsUsed, 1);
      }
    }
  }

  /** Why 0 is excluded: it also means failure.  Data that breaks off after an invented match returns
      0 together with the invention, for every number of transactions within the limit. */
  lemma FailureReportsMatches(h: PairHash, n: nat, invented: Hash)
    requires 0 < n <= MAX_BLOCK_SIZE / 60
    ensures ExtractAll(h, n, FirstLeafBits(TreeHeight(n)), [invented], false) == Extracted(0, [invented])
  {
    hide Extract, Width, TreeHeight;
    FirstLeafIsReported(h, n, invented, TreeHeight(n), TreeHeight(n));
    if n > 1 {
      HigherThanLeaf(n);
    } else {
      LeafIsRoot();
    }
  }

  lemma HigherThanLeaf(n: nat)
    requires n > 1
    ensures TreeHeight(n) > 0
  {
  }

  lemma LeafIsRoot()
    ensures TreeHeight(1) == 0
  {
  }

  /** A hash that no transaction has. */
  function Unused(txids: seq<Hash>): (r: Hash)
    ensures forall i | 0 <= i < |txids| :: txids[i] < r
  {
    if txids == [] then 1
    else
      var r := Unused(txids[..|txids| - 1]);
      if txids[|txids| - 1] < r then r else txids[|txids| - 1] + 1
  }

  /** The root of a block vouches for whatever extraction returns with it exactly when it is not 0,
      or the program extracts nothing from blocks of that size. */
  lemma RootVouchesIff(h: PairHash, txids: seq<Hash>)
    requires NoSecondPreimage(h, txids)
    ensures (forall bits, hashes, wasBad ::
        ExtractAll(h, |txids|, bits, hashes, wasBad).root == MerkleRoot(h, txids) ==>
          TrulyThere(ExtractAll(h, |txids|, bits, hashes, wasBad).matches, txids)) <==>
      MerkleRoot(h, txids) != 0 || txids == [] || |txids| > 16_666
  {
    hide Extract, TreeHeight, Width, NoSecondPreimage, MerkleRoot;
    var n := |txids|;
    if MerkleRoot(h, txids) != 0 {
      forall bits, hashes, wasBad | ExtractAll(h, n, bits, hashes, wasBad).root == MerkleRoot(h, txids)
        ensures TrulyThere(ExtractAll(h, n, bits, hashes, wasBad).matches, txids)
      {
        var positions := ExtractionIsSound(h, txids, bits, hashes, wasBad);
      }
    } else if n == 0 || n > MAX_BLOCK_SIZE / 60 {
      forall bits, hashes, wasBad
        ensures TrulyThere(ExtractAll(h, n, bits, hashes, wasBad).matches, txids)
      {
        assert AreAt([], [], txids) && Increasing([], 0, n);
      }
    } else {
      var invented := Unused(txids);
      FailureReportsMatches(h, n, invented);
      hide ExtractAll;
      InventedIsNotThere(invented, txids);
      assert ExtractAll(h, n, FirstLeafBits(TreeHeight(n)), [invented], false).root == MerkleRoot(h, txids);
    }
  }

  lemma InventedIsNotThere(invented: Hash, txids: seq<Hash>)
    requires forall i | 0 <= i < |txids| :: txids[i] < invented
    ensures !TrulyThere([invented], txids)
  {
    forall positions: seq<nat>
      ensures !AreAt([invented], positions, txids)
    {
      if |positions| == 1 && positions[0] < |txids| {
        assert [invented][0] != txids[positions[0]];
      }
    }
  }

  // ---------------------------------------------------------------- the whole round trip

  const MAX_TRANSACTIONS: nat := MAX_BLOCK_SIZE / 60

  lemma LimitIs()
    ensures MAX_TRANSACTIONS == 16_666
  {
  }

  function EncodeAll(h: PairHash, txids: seq<Hash>, match_: seq<bool>): Encoding
    requires |txids| == |match_| > 0
  {
    OneRoot(|txids|);
    Encode(h, txids, match_, TreeHeight(|txids|), 0)
  }

  /** The root covers all leaves. */
  lemma RootCovers(n: nat)
    requires n > 0
    ensures 0 < Width(n, TreeHeight(n))
    ensures FirstLeaf(TreeHeight(n), 0) == 0 && EndLeaf(n, TreeHeight(n), 0) == n
  {
    OneRoot(n);
    NodeHasLeaf(n, TreeHeight(n), 1);
  }

  lemma HasAtStart<T>(s: seq<T>, part: seq<T>)
    requires part <= s
    ensures HasAt(s, 0, part)
  {
  }

  /** Building a partial tree for any block within the size limit and any choice of transactions,
      packing its flag bits into bytes and extracting from the unpacked bits gives the Merkle root
      of the block and exactly the chosen transactions, in order, within the promised size. */
  lemma PartialTreeRoundTrip(h: PairHash, txids: seq<Hash>, match_: seq<bool>)
    requires |txids| == |match_| && 0 < |txids| <= 16_666
    ensures var code := EncodeAll(h, txids, match_);
      var chosen := Matched(txids, match_, 0, |txids|);
      && ExtractAll(h, |txids|, Padded(code.bits), code.hashes, false) == Extracted(MerkleRoot(h, txids), chosen)
      && |code.hashes| <= |txids|
      && |code.hashes| <= 1 + |chosen| * TreeHeight(|txids|)
  {
    hide Width, Encode, Extract, CalcHash, Matched, Pow2, TreeHeight, FirstLeaf, EndLeaf;
    var n := |txids|;
    var code := EncodeAll(h, txids, match_);
    RootCovers(n);
    EncodingSize(h, txids, match_, TreeHeight(n), 0);
    HasAtStart(Padded(code.bits), code.bits);
    HasAtStart(code.hashes, code.hashes);
    ExtractUndoesEncode(h, txids, match_, TreeHeight(n), 0, Padded(code.bits), code.hashes, 0, 0);
  }

  /** Below the size limit no shift or sum in the tree code leaves 32 bits. */
  lemma ShiftsFit(n: nat, height: nat, pos: nat)
    requires n <= 16_666 && height <= TreeHeight(n) && pos < Width(n, height)
    ensures (pos + 1) * Pow2(height) < 0x8000_0000 && n + Pow2(height) < 0x8000_0000
  {
    NodeHasLeaf(n, height, pos);
    if height > 0 {
      assert Width(n, height - 1) > 1;
      NodeHasLeaf(n, height - 1, 1);
    }
    assert (pos + 1) * Pow2(height) == pos * Pow2(height) + Pow2(height);
  }

  class PartialMerkleTree {
    var nTransactions: nat
    var vBits: seq<bool>
    var vHash: seq<Hash>
    var fBad: bool

    /** A tree with nothing in it, to be filled from a message. */
    constructor ()
      ensures nTransactions == 0 && vBits == [] && vHash == [] && fBad
    {
      nTransactions, vBits, vHash, fBad := 0, [], [], true;
    }

    constructor FromBlock(h: PairHash, vTxid: seq<Hash>, vMatch: seq<bool>)
      requires |vTxid| == |vMatch| > 0
      ensures nTransactions == |vTxid| && !fBad
      ensures vBits == EncodeAll(h, vTxid, vMatch).bits && vHash == EncodeAll(h, vTxid, vMatch).hashes
    {
      nTransactions, vBits, vHash, fBad := |vTxid|, [], [], false;
      new;
      var nHeight := FindHeight();
      OneRoot(|vTxid|);
      TraverseAndBuild(h, nHeight, 0, vTxid, vMatch);
    }

    method FindHeight() returns (nHeight: nat)
      ensures nHeight == TreeHeight(nTransactions)
    {
      hide Width, TreeHeight;
      nHeight := 0;
      FromTheBottom(nTransactions);
      CalcTreeWidthIsWidth(nTransactions, 0);
      while CalcTreeWidth(nTransactions, nHeight) > 1
        invariant CalcTreeWidth(nTransactions, nHeight) == Width(nTransactions, nHeight)
        invariant HeightFrom(nTransactions, nHeight) == TreeHeight(nTransactions)
        decreases Width(nTransactions, nHeight)
      {
        WidthShrinks(nTransactions, nHeight);
        nHeight := nHeight + 1;
        CalcTreeWidthIsWidth(nTransactions, nHeight);
      }
    }

    /** The loop at the start of TraverseAndBuild. */
    method IsParentOfMatch(height: nat, pos: nat, vTxid: seq<Hash>, vMatch: seq<bool>) returns (fParentOfMatch: bool)
      requires nTransactions == |vTxid| == |vMatch| && pos < Width(|vTxid|, height)
      ensures fParentOfMatch == (Wanted(vTxid, vMatch, height, pos) != [])
    {
      hide Width, Pow2;
      fParentOfMatch := false;
      NodeCovers(|vTxid|, height, pos);
      var p := pos * Pow2(height);
      while p < (pos + 1) * Pow2(height) && p < nTransactions
        invariant FirstLeaf(height, pos) <= p <= EndLeaf(|vTxid|, height, pos)
        invariant fParentOfMatch == AnyMatch(vMatch, FirstLeaf(height, pos), p)
      {
        fParentOfMatch := fParentOfMatch || vMatch[p];
        p := p + 1;
      }
      NoneMatched(vTxid, vMatch, FirstLeaf(height, pos), EndLeaf(|vTxid|, height, pos));
    }

    method TraverseAndBuild(h: PairHash, height: nat, pos: nat, vTxid: seq<Hash>, vMatch: seq<bool>)
      requires nTransactions == |vTxid| == |vMatch| && pos < Width(|vTxid|, height)
      modifies this`vBits, this`vHash
      ensures vBits == old(vBits) + Encode(h, vTxid, vMatch, height, pos).bits
      ensures vHash == old(vHash) + Encode(h, vTxid, vMatch, height, pos).hashes
      decreases height
    {
      hide *;
      var fParentOfMatch := IsParentOfMatch(height, pos, vTxid, vMatch);
      vBits := vBits + [fParentOfMatch];
      if height == 0 || !fParentOfMatch {
        EncodeStops(h, vTxid, vMatch, height, pos);
        vHash := vHash + [CalcHash(h, vTxid, height, pos)];
      } else {
        EncodeDescends(h, vTxid, vMatch, height, pos);
        TraverseAndBuild(h, height - 1, pos * 2, vTxid, vMatch);
        CalcTreeWidthIsWidth(nTransactions, height - 1);
        if pos * 2 + 1 < CalcTreeWidth(nTransactions, height - 1) {
          TraverseAndBuild(h, height - 1, pos * 2 + 1, vTxid, vMatch);
        }
      }
    }

    /** The counters and the list of matches come back as results. */
    method TraverseAndExtract(h: PairHash, height: nat, pos: nat, bitsUsed: nat, hashUsed: nat, found: seq<Hash>)
      returns (hash: Hash, nBitsUsed: nat, nHashUsed: nat, vMatch: seq<Hash>)
      modifies this`fBad
      ensures var e := Extract(h, nTransactions, vBits, vHash, height, pos, bitsUsed, hashUsed);
        && hash == e.hash && nBitsUsed == e.nBitsUsed && nHashUsed == e.nHashUsed
        && vMatch == found + e.matches && fBad == (old(fBad) || e.bad)
      decreases height
    {
      hide *;
      nBitsUsed, nHashUsed, vMatch := bitsUsed, hashUsed, found;
      if nBitsUsed >= |vBits| {
        ExtractRunsOut(h, nTransactions, vBits, vHash, height, pos, bitsUsed, hashUsed);
        fBad := true;
        return 0, nBitsUsed, nHashUsed, vMatch;
      }
      var fParentOfMatch := vBits[nBitsUsed];
      nBitsUsed := nBitsUsed + 1;
      if height == 0 || !fParentOfMatch {
        if nHashUsed >= |vHash| {
          ExtractRunsOut(h, nTransactions, vBits, vHash, height, pos, bitsUsed, hashUsed);
          fBad := true;
          return 0, nBitsUsed, nHashUsed, vMatch;
        }
        ExtractStops(h, nTransactions, vBits, vHash, height, pos, bitsUsed, hashUsed);
        hash := vHash[nHashUsed];
        nHashUsed := nHashUsed + 1;
        if height == 0 && fParentOfMatch {
          vMatch := vMatch + [hash];
        }
      } else {
        ExtractDescends(h, nTransactions, vBits, vHash, height, pos, bitsUsed, hashUsed);
        var left, right;
        left, nBitsUsed, nHashUsed, vMatch := TraverseAndExtract(h, height - 1, pos * 2, nBitsUsed, nHashUsed, vMatch);
        CalcTreeWidthIsWidth(nTransactions, height - 1);
        if pos * 2 + 1 < CalcTreeWidth(nTransactions, height - 1) {
          right, nBitsUsed, nHashUsed, vMatch :=
            TraverseAndExtract(h, height - 1, pos * 2 + 1, nBitsUsed, nHashUsed, vMatch);
        } else {
          right := left;
        }
        hash := h(left, right);
      }
    }

    method ExtractMatches(h: PairHash) returns (hashMerkleRoot: Hash, vMatch: seq<Hash>)
      modifies this`fBad
      ensures Extracted(hashMerkleRoot, vMatch) == ExtractAll(h, nTransactions, vBits, vHash, old(fBad))
      ensures old(fBad) ==> fBad
    {
      hide Extract, Width, TreeHeight;
      vMatch := [];
      if nTransactions == 0 {
        return 0, vMatch;
      }
      if nTransactions > MAX_BLOCK_SIZE / 60 {
        return 0, vMatch;
      }
      if |vHash| > nTransactions {
        return 0, vMatch;
      }
      if |vBits| < |vHash| {
        return 0, vMatch;
      }
      var nHeight := FindHeight();
      var nBitsUsed, nHashUsed;
      hashMerkleRoot, nBitsUsed, nHashUsed, vMatch := TraverseAndExtract(h, nHeight, 0, 0, 0, vMatch);
      if fBad {
        return 0, vMatch;
      }
      if (nBitsUsed + 7) / 8 != (|vBits| + 7) / 8 {
        return 0, vMatch;
      }
      if nHashUsed != |vHash| {
        return 0, vMatch;
      }
    }

    /** What goes on the wire: the count, the hashes and the flag bits as bytes. */
    method Serialize() returns (total: nat, hashes: seq<Hash>, vBytes: seq<bv8>)
      ensures total == nTransactions && hashes == vHash && Unpack(vBytes) == Padded(vBits)
    {
      total, hashes := nTransactions, vHash;
      vBytes := Pack(vBits);
    }

    method Unserialize(total: nat, hashes: seq<Hash>, vBytes: seq<bv8>)
      modifies this
      ensures nTransactions == total && vHash == hashes && vBits == Unpack(vBytes) && !fBad
    {
      nTransactions, vHash := total, hashes;
      vBits := ReadBits(vBytes);
      fBad := false;
    }
  }

  lemma FromTheBottom(n: nat)
    ensures HeightFrom(n, 0) == TreeHeight(n)
  {
  }

  /** A peer that receives the serialized tree extracts the root and the chosen transactions. */
  method Relay(h: PairHash, vTxid: seq<Hash>, vMatch: seq<bool>) returns (root: Hash, matches: seq<Hash>)
    requires |vTxid| == |vMatch| && 0 < |vTxid| <= 16_666
    ensures root == MerkleRoot(h, vTxid) && matches == Matched(vTxid, vMatch, 0, |vTxid|)
  {
    hide *;
    var sent := new PartialMerkleTree.FromBlock(h, vTxid, vMatch);
    var total, hashes, vBytes := sent.Serialize();
    var received := new PartialMerkleTree();
    received.Unserialize(total, hashes, vBytes);
    root, matches := received.ExtractMatches(h);
    PartialTreeRoundTrip(h, vTxid, vMatch);
  }
}
