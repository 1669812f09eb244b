/** Ancestors and forks in the tree of block index entries, and the coins a branch leads to. */
module BlockTrees {
  import opened Transactions
  import opened BlockIndexes
  import opened CoinsViews
  import opened CoinUpdates

  /** Heights count the steps from the root. */
  ghost predicate WellFormed(b: BlockIndex)
    decreases b.nHeight
  {
    if b.pprev == null then b.nHeight == 0 else b.nHeight == b.pprev.nHeight + 1 && WellFormed(b.pprev)
  }

  /** The block at height `h` on the branch that ends in `b`. */
  ghost function Ancestor(b: BlockIndex, h: nat): (a: BlockIndex)
    requires WellFormed(b) && h <= b.nHeight
    ensures WellFormed(a) && a.nHeight == h
    decreases b.nHeight
  {
    if h == b.nHeight then b else Ancestor(b.pprev, h)
  }

  ghost predicate IsAncestor(a: BlockIndex, b: BlockIndex)
    requires WellFormed(b)
  {
    a.nHeight <= b.nHeight && Ancestor(b, a.nHeight) == a
  }

  lemma {:induction false} AncestorOfAncestor(b: BlockIndex, h: nat, g: nat)
    requires WellFormed(b) && g <= h <= b.nHeight
    ensures Ancestor(Ancestor(b, h), g) == Ancestor(b, g)
    decreases b.nHeight
  {
    if h < b.nHeight {
      AncestorOfAncestor(b.pprev, h, g);
    }
  }

  lemma AncestorStep(b: BlockIndex, h: nat)
    requires WellFormed(b) && 0 < h <= b.nHeight
    ensures Ancestor(b, h).pprev == Ancestor(b, h - 1)
  {
    AncestorOfAncestor(b, h, h - 1);
  }

  /** A set of entries that holds every entry's parent and has at most one root. */
  ghost predicate IsTree(index: set<BlockIndex>) {
    && (forall b | b in index :: WellFormed(b) && (b.pprev != null ==> b.pprev in index))
    && (forall a, b | a in index && b in index && a.pprev == null && b.pprev == null :: a == b)
  }

  lemma {:induction false} AncestorInTree(index: set<BlockIndex>, b: BlockIndex, h: nat)
    requires IsTree(index) && b in index && h <= b.nHeight
    ensures Ancestor(b, h) in index
    decreases b.nHeight
  {
    if h < b.nHeight {
      AncestorInTree(index, b.pprev, h);
    }
  }

  lemma OneRoot(index: set<BlockIndex>, a: BlockIndex, b: BlockIndex)
    requires IsTree(index) && a in index && b in index
    ensures Ancestor(a, 0) == Ancestor(b, 0)
  {
    AncestorInTree(index, a, 0);
    AncestorInTree(index, b, 0);
  }

  /** The next block on the branch that ends in `tip`; null off that branch and at its end. */
  ghost function Link(tip: BlockIndex?, b: BlockIndex): BlockIndex?
    requires tip != null ==> WellFormed(tip)
  {
    if tip != null && b.nHeight < tip.nHeight && Ancestor(tip, b.nHeight) == b then Ancestor(tip, b.nHeight + 1)
      else null
  }

  /** `fork` is where the branches of `a` and `b` part: the highest block they share. */
  ghost predicate IsFork(fork: BlockIndex?, a: BlockIndex?, b: BlockIndex)
    requires WellFormed(b) && (a != null ==> WellFormed(a))
  {
    if a == null then fork == null
    else
      && fork != null
      && IsAncestor(fork, a)
      && IsAncestor(fork, b)
      && forall h: nat | fork.nHeight < h <= a.nHeight && h <= b.nHeight :: Ancestor(a, h) != Ancestor(b, h)
  }

  // ---------------------------------------------------------------- replaying a branch

  /** The coins after connecting every block from the root to `b`; None when one of them cannot be
      connected.  The root is only checked, not connected: its outputs cannot be spent. */
  ghost function Replay(b: BlockIndex): (view: Option<View>)
    requires WellFormed(b)
    decreases b.nHeight
  {
    if b.pprev == null then (if CheckBlock(b.block) then Some(map[]) else None)
    else match Replay(b.pprev)
      case None => None
      case Some(v) => match Connect(v, b.block, b.nHeight)
        case None => None
        case Some(c) => Some(c.view)
  }

  /** The undo data that replaying the branch records for `b`. */
  ghost function ReplayUndo(b: BlockIndex): Option<BlockUndo>
    requires WellFormed(b)
  {
    if b.pprev == null || Replay(b.pprev) == None then None
    else match Connect(Replay(b.pprev).value, b.block, b.nHeight)
      case None => None
      case Some(c) => Some(c.undo)
  }

  /** The blocks of the branch, from the root to `b`. */
  ghost function BlocksOf(b: BlockIndex): (blocks: seq<Block>)
    requires WellFormed(b)
    ensures |blocks| == b.nHeight + 1 && blocks[b.nHeight] == b.block
    decreases b.nHeight
  {
    if b.pprev == null then [b.block] else BlocksOf(b.pprev) + [b.block]
  }

  lemma {:induction false} BlocksBelow(b: BlockIndex, h: nat)
    requires WellFormed(b) && h <= b.nHeight
    ensures BlocksOf(Ancestor(b, h)) == BlocksOf(b)[..h + 1]
    decreases b.nHeight
  {
    if h < b.nHeight {
      BlocksBelow(b.pprev, h);
    }
  }

  /** Two branches of the same blocks, each with index entries of its own, replay alike. */
  lemma {:induction false} SameBlocksReplay(a: BlockIndex, b: BlockIndex)
    requires WellFormed(a) && WellFormed(b) && BlocksOf(a) == BlocksOf(b)
    ensures a.nHeight == b.nHeight && a.block == b.block
    ensures Replay(a) == Replay(b) && ReplayUndo(a) == ReplayUndo(b)
    decreases a.nHeight
  {
    hide Connect, CheckBlock;
    if a.pprev != null {
      assert BlocksOf(a.pprev) == BlocksOf(a)[..a.nHeight] == BlocksOf(b)[..b.nHeight] == BlocksOf(b.pprev);
      SameBlocksReplay(a.pprev, b.pprev);
    }
  }

  lemma {:induction false} ReplayHeights(b: BlockIndex)
    requires WellFormed(b) && Replay(b) != None
    ensures HeightsPositive(Replay(b).value)
    decreases b.nHeight
  {
    if b.pprev != null {
      ReplayHeights(b.pprev);
      ConnectTxsHeights(Replay(b.pprev).value, b.block.vtx, |b.block.vtx|, b.nHeight);
    }
  }

  lemma {:induction false} ReplayEarlier(b: BlockIndex, h: nat)
    requires WellFormed(b) && Replay(b) != None && h <= b.nHeight
    ensures Replay(Ancestor(b, h)) != None
    decreases b.nHeight
  {
    if h < b.nHeight {
      ReplayEarlier(b.pprev, h);
    }
  }

  /** What a view that shows the coins of `b` turns into when `b` is disconnected. */
  lemma DisconnectReplay(b: BlockIndex, w: View)
    requires WellFormed(b) && b.pprev != null && Replay(b) != None && SameView(Replay(b).value, w)
    ensures ReplayUndo(b) != None && UndoFits(b.block.vtx, ReplayUndo(b).value)
    ensures Replay(b.pprev) != None
    ensures SameView(Replay(b.pprev).value, Disconnect(w, b.block.vtx, ReplayUndo(b).value, |b.block.vtx|))
  {
    hide SameView, Disconnect, UndoFits, Connect;
    ReplayHeights(b.pprev);
    DisconnectUndoesConnect(Replay(b.pprev).value, w, b.block, b.nHeight);
  }

  /** What a view that shows the coins of the parent of `b` turns into when `b` is connected. */
  lemma ConnectReplay(b: BlockIndex, w: View)
    requires WellFormed(b) && b.pprev != null && Replay(b.pprev) != None && SameView(Replay(b.pprev).value, w)
    ensures Replay(b) != None <==> Connect(w, b.block, b.nHeight) != None
    ensures Replay(b) != None ==>
      && SameView(Replay(b).value, Connect(w, b.block, b.nHeight).value.view)
      && ReplayUndo(b) == Some(Connect(w, b.block, b.nHeight).value.undo)
  {
    hide SameView, Connect;
    ConnectSame(Replay(b.pprev).value, w, b.block, b.nHeight);
  }
}
