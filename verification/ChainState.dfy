/** The active chain: its tip, the links along it, and the coins it leads to. */
module ChainStates {
  import opened Transactions
  import opened Coins
  import opened BlockIndexes
  import opened CoinsViews
  import opened CoinUpdates
  import opened CleanChains
  import opened CleanDisconnects
  import opened BlockTrees
  import opened ConnectLaws
  import opened BlockProcessing
  import opened Sequences

  /** The view shows the coins of the branch that ends in `b`. */
  ghost predicate Shows(view: CoinsViewCache, b: BlockIndex?)
    requires view.Valid()
    reads view.Repr
  {
    && view.Tip() == b
    && ShowsCoins(view.Visible(), b)
  }

  /** The view is positioned at `b`, and its entries are undisturbed if that is claimed. */
  ghost predicate At(view: CoinsViewCache, b: BlockIndex?, steady: bool)
    requires view.Valid()
    reads view.Repr
  {
    Shows(view, b) && view.pindexTip == b && (steady ==> Undisturbed(view.Visible(), b))
  }

  ghost predicate UnrepeatedBranch(b: BlockIndex) {
    WellFormed(b) && Unrepeated(b)
  }

  ghost predicate ShowsCoins(coins: View, b: BlockIndex?) {
    if b == null then SameView(map[], coins)
    else WellFormed(b) && Replay(b) != None && SameView(Replay(b).value, coins)
  }

  /** The undo data is what it was, or newly written as a replay records it. */
  ghost predicate UndoKept(b: BlockIndex, was: Option<BlockUndo>)
    reads b`undo
  {
    (was != None ==> b.undo == was) && (b.undo != None ==> WellFormed(b) && b.undo == ReplayUndo(b))
  }

  /** Undo data on disk is what a replay would record. */
  ghost predicate UndoIsReplayed(index: set<BlockIndex>)
    reads index`undo
  {
    forall b | b in index :: UndoKept(b, b.undo)
  }

  /** Every block of the branch but the root has undo data. */
  ghost predicate UndoIsThere(index: set<BlockIndex>, tip: BlockIndex?)
    requires IsTree(index) && (tip != null ==> WellFormed(tip))
    reads index`undo
  {
    forall b | b in index && b.pprev != null && tip != null && IsAncestor(b, tip) :: b.undo != None
  }

  ghost predicate Linked(index: set<BlockIndex>, tip: BlockIndex?)
    requires tip != null ==> WellFormed(tip)
    reads index`pnext
  {
    forall b | b in index :: b.pnext == Link(tip, b)
  }

  lemma TreeGrows(index: set<BlockIndex>, b: BlockIndex)
    requires IsTree(index) && (if b.pprev == null then index == {} else b.pprev in index)
    requires b.nHeight == if b.pprev == null then 0 else b.pprev.nHeight + 1
    ensures IsTree(index + {b})
  {
  }

  /** A block that is not in the tree is not on any of its branches. */
  lemma OutsideBranch(index: set<BlockIndex>, tip: BlockIndex?, b: BlockIndex)
    requires IsTree(index) && (tip != null ==> tip in index) && b !in index
    ensures tip != null ==> !IsAncestor(b, tip)
    ensures Link(tip, b) == null
  {
    if tip != null && b.nHeight <= tip.nHeight {
      AncestorInTree(index, tip, b.nHeight);
    }
  }

  ghost predicate Descends(b: BlockIndex, parent: BlockIndex?) {
    WellFormed(b) && b.pprev == parent
  }

  /** The child of `parent`, with the undo data a replay would record. */
  ghost predicate CanBeUndone(b: BlockIndex, parent: BlockIndex?)
    reads b`undo
  {
    Descends(b, parent) && parent != null && b.undo != None && b.undo == ReplayUndo(b)
  }

  lemma RecordsGrow(index: set<BlockIndex>, tip: BlockIndex?, b: BlockIndex)
    requires IsTree(index) && (tip != null ==> tip in index) && b !in index && IsTree(index + {b})
    requires UndoIsReplayed(index) && UndoIsThere(index, tip) && Linked(index, tip) && b.pnext == null && b.undo == None
    ensures UndoIsReplayed(index + {b}) && UndoIsThere(index + {b}, tip) && Linked(index + {b}, tip)
  {
    hide WellFormed, Ancestor;
    OutsideBranch(index, tip, b);
  }

  function HeightOf(b: BlockIndex?): (h: int)
    ensures h >= -1
  {
    if b == null then -1 else b.nHeight
  }

  class ChainState {
    const pcoinsTip: CoinsViewCache
    var index: set<BlockIndex>
    var pindexBest: BlockIndex?
    var nBestHeight: int
    var pindexGenesisBlock: BlockIndex?
    /** Where FindBlockByHeight ended last. */
    var pblockindexFBBHLast: BlockIndex?

    ghost predicate Valid()
      reads this, index, pcoinsTip.Repr
    {
      && pcoinsTip.Valid()
      && IsTree(index)
      && (pindexBest != null ==> pindexBest in index)
      && Shows(pcoinsTip, pindexBest)
      && UndoIsReplayed(index)
      && UndoIsThere(index, pindexBest)
      && Linked(index, pindexBest)
      && Pointers()
    }

    lemma Parts()
      requires Valid()
      ensures pcoinsTip.Valid() && pcoinsTip.Tip() == pindexBest && ShowsCoins(pcoinsTip.Visible(), pindexBest)
      ensures IsTree(index) && Shows(pcoinsTip, pindexBest)
      ensures pindexBest != null ==> pindexBest in index && WellFormed(pindexBest)
      ensures UndoIsReplayed(index) && UndoIsThere(index, pindexBest) && Linked(index, pindexBest) && Pointers()
      ensures forall b | b in index :: UndoKept(b, b.undo)
      ensures nBestHeight == HeightOf(pindexBest) && (pindexBest != null ==> nBestHeight == pindexBest.nHeight)
      ensures pindexGenesisBlock != null ==> pindexGenesisBlock in index && pindexGenesisBlock.pprev == null
      ensures pindexBest != null ==> pindexGenesisBlock == Ancestor(pindexBest, 0)
      ensures pblockindexFBBHLast != null ==> pindexBest != null && IsAncestor(pblockindexFBBHLast, pindexBest)
    {
    }

    lemma Whole()
      requires pcoinsTip.Valid() && IsTree(index) && (pindexBest != null ==> pindexBest in index)
      requires Shows(pcoinsTip, pindexBest)
      requires UndoIsReplayed(index) && UndoIsThere(index, pindexBest) && Linked(index, pindexBest) && Pointers()
      ensures Valid()
    {
    }

    ghost predicate Pointers()
      requires pindexBest != null ==> WellFormed(pindexBest)
      reads this
    {
      && nBestHeight == HeightOf(pindexBest)
      && (pindexGenesisBlock != null ==> pindexGenesisBlock in index && pindexGenesisBlock.pprev == null)
      && (pindexBest != null ==> pindexGenesisBlock == Ancestor(pindexBest, 0))
      && (pblockindexFBBHLast != null ==> pindexBest != null && IsAncestor(pblockindexFBBHLast, pindexBest))
    }

    /** An empty chain state over an empty database. */
    constructor (pcoinsTip: CoinsViewCache)
      requires pcoinsTip.Valid() && pcoinsTip.Visible() == map[] && pcoinsTip.Tip() == null
      ensures Valid() && index == {} && pindexBest == null && this.pcoinsTip == pcoinsTip
      ensures Undisturbed(pcoinsTip.Visible(), pindexBest) && StoresItsTip()
    {
      this.pcoinsTip := pcoinsTip;
      index := {};
      pindexBest := null;
      nBestHeight := -1;
      pindexGenesisBlock := null;
      pblockindexFBBHLast := null;
    }

    /** Add a block to the index. */
    method AddToBlockIndex(block: Block, pprev: BlockIndex?) returns (pindexNew: BlockIndex)
      requires Valid() && (if pprev == null then index == {} else pprev in index)
      modifies this`index
      ensures Valid() && fresh(pindexNew) && index == old(index) + {pindexNew}
      ensures pindexNew.block == block && pindexNew.pprev == pprev
    {
      hide Shows, ReplayUndo, IsTree, WellFormed, Ancestor, Linked, UndoIsReplayed, UndoIsThere, UndoKept;
      pindexNew := new BlockIndex(block, pprev);
      TreeGrows(index, pindexNew);
      RecordsGrow(index, pindexBest, pindexNew);
      index := index + {pindexNew};
    }

    /** Walk back from `b` while its height is above `h`. */
    static method WalkBack(b: BlockIndex, h: nat) returns (a: BlockIndex)
      requires WellFormed(b)
      ensures a == if b.nHeight > h then Ancestor(b, h) else b
    {
      a := b;
      while a.nHeight > h
        invariant IsAncestor(a, b) && (a.nHeight >= h || a == b)
        decreases a.nHeight
      {
        AncestorStep(b, a.nHeight);
        a := a.pprev;
      }
    }

    /** Above this height the two branches have no block in common. */
    static ghost predicate PartBelow(tip: BlockIndex, pindexNew: BlockIndex, top: nat)
      requires WellFormed(tip) && WellFormed(pindexNew)
    {
      forall h: nat | top < h <= tip.nHeight && h <= pindexNew.nHeight :: Ancestor(tip, h) != Ancestor(pindexNew, h)
    }

    static lemma AncestorTransitive(a: BlockIndex, b: BlockIndex, c: BlockIndex)
      requires WellFormed(c) && IsAncestor(b, c) && WellFormed(b) && IsAncestor(a, b)
      ensures IsAncestor(a, c)
    {
      AncestorOfAncestor(c, b.nHeight, a.nHeight);
    }

    /** When the branches differ at this height, the fork is further down. */
    static lemma ForkStep(tip: BlockIndex, pindexNew: BlockIndex, pfork: BlockIndex, plonger: BlockIndex)
      requires WellFormed(tip) && WellFormed(pindexNew) && Ancestor(tip, 0) == Ancestor(pindexNew, 0)
      requires IsAncestor(pfork, tip) && IsAncestor(plonger, pindexNew) && pfork != plonger
      requires plonger.nHeight == pfork.nHeight || (plonger.nHeight < pfork.nHeight && plonger == pindexNew)
      requires PartBelow(tip, pindexNew, pfork.nHeight)
      ensures pfork.pprev != null && IsAncestor(pfork.pprev, tip) && pfork.pprev.nHeight < pfork.nHeight
      ensures PartBelow(tip, pindexNew, pfork.pprev.nHeight)
    {
      if pfork.nHeight > 0 {
        AncestorStep(tip, pfork.nHeight);
      }
    }

    /** The highest block shared by the branches of the current tip and of `pindexNew`. */
    static method FindFork(tip: BlockIndex?, pindexNew: BlockIndex) returns (pfork: BlockIndex?)
      requires tip != null ==> WellFormed(tip) && WellFormed(pindexNew) && Ancestor(tip, 0) == Ancestor(pindexNew, 0)
      requires WellFormed(pindexNew)
      ensures IsFork(pfork, tip, pindexNew)
    {
      if tip == null {
        return null;
      }
      pfork := tip;
      var plonger := pindexNew;
      while pfork != plonger
        invariant pfork != null
        invariant IsAncestor(pfork, tip) && IsAncestor(plonger, pindexNew)
        invariant plonger.nHeight == pindexNew.nHeight || plonger.nHeight > pfork.nHeight
        invariant PartBelow(tip, pindexNew, pfork.nHeight)
        decreases pfork.nHeight
      {
        hide WellFormed, Ancestor, IsAncestor, PartBelow;
        ghost var before := plonger;
        plonger := WalkBack(plonger, pfork.nHeight);
        AncestorTransitive(plonger, before, pindexNew);
        if pfork == plonger {
          break;
        }
        ForkStep(tip, pindexNew, pfork, plonger);
        pfork := pfork.pprev;
      }
    }

    /** `path` holds the blocks of a branch from its end down to `fork`, which stays out. */
    static ghost predicate DownPath(path: seq<BlockIndex>, from: BlockIndex?, fork: BlockIndex?) {
      && (from != null ==> WellFormed(from))
      && (fork != null ==> from != null && IsAncestor(fork, from))
      && |path| == HeightOf(from) - HeightOf(fork)
      && forall i | 0 <= i < |path| :: path[i] == Ancestor(from, from.nHeight - i)
    }

    /** The same, upwards. */
    static ghost predicate UpPath(path: seq<BlockIndex>, to: BlockIndex, fork: BlockIndex?) {
      && WellFormed(to)
      && (fork != null ==> IsAncestor(fork, to))
      && |path| == to.nHeight - HeightOf(fork)
      && forall i | 0 <= i < |path| :: path[i] == Ancestor(to, HeightOf(fork) + 1 + i)
    }

    static method PathDown(from: BlockIndex?, fork: BlockIndex?) returns (path: seq<BlockIndex>)
      requires from != null ==> WellFormed(from)
      requires fork != null ==> from != null && IsAncestor(fork, from)
      ensures DownPath(path, from, fork)
    {
      path := [];
      var pindex := from;
      while pindex != fork
        invariant HeightOf(fork) <= HeightOf(pindex) <= HeightOf(from)
        invariant |path| == HeightOf(from) - HeightOf(pindex)
        invariant pindex != null ==> IsAncestor(pindex, from)
        invariant forall i | 0 <= i < |path| :: path[i] == Ancestor(from, from.nHeight - i)
        decreases HeightOf(pindex)
      {
        path := path + [pindex];
        if pindex.nHeight > 0 {
          AncestorStep(from, pindex.nHeight);
        }
        pindex := pindex.pprev;
      }
    }

    static lemma ReversedPath(path: seq<BlockIndex>, to: BlockIndex, fork: BlockIndex?)
      requires DownPath(path, to, fork)
      ensures UpPath(Reversed(path), to, fork)
    {
    }

    static lemma ForkOfTree(index: set<BlockIndex>, tip: BlockIndex?, pindexNew: BlockIndex)
      requires IsTree(index) && pindexNew in index && (tip != null ==> tip in index)
      ensures WellFormed(pindexNew) && (tip != null ==> WellFormed(tip) && Ancestor(tip, 0) == Ancestor(pindexNew, 0))
    {
      if tip != null {
        OneRoot(index, tip, pindexNew);
      }
    }

    static lemma ForkEnds(fork: BlockIndex?, tip: BlockIndex?, pindexNew: BlockIndex)
      requires WellFormed(pindexNew) && (tip != null ==> WellFormed(tip)) && IsFork(fork, tip, pindexNew)
      ensures fork != null ==> tip != null && IsAncestor(fork, tip) && IsAncestor(fork, pindexNew)
      ensures fork == null ==> tip == null
    {
    }

    static lemma DownPathStarts(path: seq<BlockIndex>, tip: BlockIndex?, fork: BlockIndex?)
      requires DownPath(path, tip, fork) && (fork == null ==> tip == null)
      ensures path != [] ==> fork != null && tip != null
    {
    }

    static lemma FromTheRoot(path: seq<BlockIndex>, to: BlockIndex, fork: BlockIndex?)
      requires UpPath(path, to, fork)
      ensures fork == null ==> path != [] && path[0].pprev == null && path[0] == Ancestor(to, 0)
      ensures fork != null && path != [] ==> path[0].pprev == fork
    {
      if fork != null && path != [] {
        AncestorStep(to, fork.nHeight + 1);
      }
    }

    /** Every block to disconnect has the undo data of a replay. */
    static lemma DownPathCanBeUndone(index: set<BlockIndex>, path: seq<BlockIndex>, tip: BlockIndex?, fork: BlockIndex?)
      requires IsTree(index) && (tip != null ==> tip in index) && DownPath(path, tip, fork)
      requires path != [] ==> fork != null
      requires UndoIsReplayed(index) && UndoIsThere(index, tip)
      ensures forall i | 0 <= i < |path| :: CanBeUndone(path[i], Next(path, i, fork)) && path[i] in index
      ensures tip == if path != [] then path[0] else fork
    {
      hide Ancestor, WellFormed, CanBeUndone, DownPath, UndoIsReplayed, UndoIsThere;
      forall i | 0 <= i < |path|
        ensures CanBeUndone(path[i], Next(path, i, fork)) && path[i] in index
      {
        DownStepCanBeUndone(index, path, tip, fork, i);
      }
      DownPathTop(path, tip, fork);
    }

    static lemma DownPathTop(path: seq<BlockIndex>, tip: BlockIndex?, fork: BlockIndex?)
      requires DownPath(path, tip, fork)
      ensures tip == if path != [] then path[0] else fork
    {
    }

    static lemma DownStep(index: set<BlockIndex>, path: seq<BlockIndex>, tip: BlockIndex, fork: BlockIndex?, i: nat)
      requires IsTree(index) && tip in index && DownPath(path, tip, fork) && i < |path|
      ensures path[i] in index && Descends(path[i], Next(path, i, fork)) && IsAncestor(path[i], tip)
    {
      var h := tip.nHeight - i;
      DownPathAt(path, tip, fork, i);
      hide WellFormed, Ancestor, DownPath, IsTree;
      AncestorInTree(index, tip, h);
      if h > 0 {
        AncestorStep(tip, h);
      } else {
        RootHasNoParent(path[i]);
      }
    }

    static lemma DownPathAt(path: seq<BlockIndex>, tip: BlockIndex, fork: BlockIndex?, i: nat)
      requires DownPath(path, tip, fork) && i < |path|
      ensures WellFormed(tip) && 0 <= tip.nHeight - i
      ensures path[i] == Ancestor(tip, tip.nHeight - i)
      ensures Next(path, i, fork) == if tip.nHeight - i > 0 then Ancestor(tip, tip.nHeight - i - 1) else null
    {
      hide WellFormed;
    }

    static lemma RootHasNoParent(b: BlockIndex)
      requires WellFormed(b) && b.nHeight == 0
      ensures b.pprev == null
    {
    }

    static lemma DownStepCanBeUndone(index: set<BlockIndex>, path: seq<BlockIndex>, tip: BlockIndex?,
                                     fork: BlockIndex?, i: nat)
      requires IsTree(index) && (tip != null ==> tip in index) && DownPath(path, tip, fork)
      requires fork != null && i < |path| && UndoIsReplayed(index) && UndoIsThere(index, tip)
      ensures CanBeUndone(path[i], Next(path, i, fork)) && path[i] in index
    {
      DownPathStarts(path, tip, fork);
      DownStep(index, path, tip, fork, i);
      hide DownPath, IsTree, WellFormed, IsAncestor, Ancestor, ReplayUndo;
      assert UndoKept(path[i], path[i].undo);
    }

    static lemma UpPathDescends(index: set<BlockIndex>, path: seq<BlockIndex>, to: BlockIndex, fork: BlockIndex?)
      requires IsTree(index) && to in index && UpPath(path, to, fork)
      ensures forall i | 0 <= i < |path| :: path[i] in index && Descends(path[i], Previous(path, i, fork))
      ensures End(path, fork) == to
    {
      hide UpPath, Descends, IsTree, WellFormed;
      forall i | 0 <= i < |path|
        ensures path[i] in index && Descends(path[i], Previous(path, i, fork))
      {
        UpStep(index, path, to, fork, i);
      }
      UpPathEnds(path, to, fork);
    }

    static lemma UpPathEnds(path: seq<BlockIndex>, to: BlockIndex, fork: BlockIndex?)
      requires UpPath(path, to, fork)
      ensures End(path, fork) == to
    {
    }

    static lemma UpStep(index: set<BlockIndex>, path: seq<BlockIndex>, to: BlockIndex, fork: BlockIndex?, i: nat)
      requires IsTree(index) && to in index && UpPath(path, to, fork) && i < |path|
      ensures path[i] in index && Descends(path[i], Previous(path, i, fork))
    {
      var h := HeightOf(fork) + 1 + i;
      UpPathAt(path, to, fork, i);
      hide WellFormed, Ancestor, UpPath, IsTree;
      AncestorInTree(index, to, h);
      if h > 0 {
        AncestorStep(to, h);
      } else {
        RootHasNoParent(path[i]);
      }
    }

    static lemma UpPathAt(path: seq<BlockIndex>, to: BlockIndex, fork: BlockIndex?, i: nat)
      requires UpPath(path, to, fork) && i < |path|
      ensures WellFormed(to) && HeightOf(fork) + 1 + i <= to.nHeight
      ensures path[i] == Ancestor(to, HeightOf(fork) + 1 + i)
      ensures Previous(path, i, fork) == if HeightOf(fork) + i >= 0 then Ancestor(to, HeightOf(fork) + i) else null
    {
      hide WellFormed;
    }

    /** Disconnect the blocks of `path`, each the child of the next and the last one of `fork`. */
    static method DisconnectBranch(view: CoinsViewCache, path: seq<BlockIndex>, fork: BlockIndex?, ghost steady: bool)
      returns (ok: bool)
      requires view.Valid() && At(view, if path != [] then path[0] else fork, steady)
      requires forall i | 0 <= i < |path| :: CanBeUndone(path[i], Next(path, i, fork))
      modifies view.Repr
      ensures view.Beneath() == old(view.Beneath())
      ensures ok ==> At(view, fork, steady)
      ensures ok == CleanDown(old(view.Visible()), path)
      ensures steady && CanonicalBlocks(path) ==> ok
    {
      hide *;
      ghost var from := view.Visible();
      TracksStart(from);
      WholePath(path);
      forall j | 0 <= j < |path|
        ensures path[j] !in view.Repr
      {
        view.OwnsOnlyViews(path[j]);
      }
      for i := 0 to |path|
        invariant view.Beneath() == old(view.Beneath())
        invariant At(view, if i < |path| then path[i] else fork, steady)
        invariant Tracks(from, view.Visible())
        invariant CleanDown(old(view.Visible()), path) == CleanDown(from, path[i..])
        invariant forall j | 0 <= j < |path| :: CanBeUndone(path[j], Next(path, j, fork))
      {
        UndoOnPath(path, i, fork);
        CleanDownStep(from, path, i);
        CanonicalOnPath(path, i);
        ok := DisconnectStep(path[i], view, from, steady);
        if !ok {
          return;
        }
        from := Cleared(from, path[i].block);
      }
      assert path[|path|..] == [];
      CleanDownEnds(from);
      ok := true;
    }

    static lemma WholePath(path: seq<BlockIndex>)
      ensures path[0..] == path
    {
    }

    static lemma CanonicalOnPath(path: seq<BlockIndex>, i: nat)
      requires i < |path|
      ensures CanonicalBlocks(path) ==> CanonicalBlock(path[i].block)
    {
    }

    static lemma UndoOnPath(path: seq<BlockIndex>, i: nat, fork: BlockIndex?)
      requires i < |path| && CanBeUndone(path[i], Next(path, i, fork))
      ensures path[i].pprev == (if i + 1 < |path| then path[i + 1] else fork)
      ensures CanBeUndone(path[i], path[i].pprev)
    {
    }

    /** What follows block `i` of a path. */
    static ghost function Next(path: seq<BlockIndex>, i: nat, fork: BlockIndex?): BlockIndex?
      requires i < |path|
    {
      if i + 1 < |path| then path[i + 1] else fork
    }

    static ghost function Previous(path: seq<BlockIndex>, i: nat, fork: BlockIndex?): BlockIndex?
      requires i < |path|
    {
      if i == 0 then fork else path[i - 1]
    }

    /** Disconnect one block; its coins grew from `from`. */
    static method DisconnectStep(b: BlockIndex, view: CoinsViewCache, ghost from: View, ghost steady: bool)
      returns (ok: bool)
      requires view.Valid() && At(view, b, steady) && CanBeUndone(b, b.pprev) && Tracks(from, view.Visible())
      modifies view.Repr
      ensures view.Beneath() == old(view.Beneath())
      ensures ok ==> At(view, b.pprev, steady) && Tracks(Cleared(from, b.block), view.Visible())
      ensures ok == BlockFits(from, b.block, b.nHeight)
      ensures steady && CanonicalBlock(b.block) ==> ok
    {
      hide SameView, Undisturbed, Disconnect, DisconnectClean, UndoFits, ReplayUndo, Tracks, Cleared, BlockFits;
      hide CanonicalBlock;
      ghost var before := view.Visible();
      var fClean;
      ok, fClean := DisconnectBlock(b, view, false);
      DisconnectReplay(b, before);
      DisconnectReplayTracked(b, from, before);
      if steady {
        DisconnectUndisturbed(b, before);
        if CanonicalBlock(b.block) {
          TracksStart(before);
          DisconnectReplayTracked(b, before, before);
          UndisturbedIsClean(b, before);
        }
      }
    }

    /** Connect the blocks of `path`, the first one a child of `fork` and each the parent of the
        next.  Undo data is written where there is none yet. */
    method ConnectBranch(view: CoinsViewCache, path: seq<BlockIndex>, fork: BlockIndex?, checks: BlockIndex -> bool,
                         ghost steady: bool)
      returns (ok: bool)
      requires view.Valid() && At(view, fork, steady)
      requires forall i | 0 <= i < |path| :: path[i] in index && Descends(path[i], Previous(path, i, fork))
      requires steady ==> forall i | 0 <= i < |path| :: UnrepeatedBranch(path[i])
      requires forall b | b in index :: UndoKept(b, b.undo)
      modifies view.Repr, index`undo, `pindexGenesisBlock
      ensures view.Beneath() == old(view.Beneath())
      ensures forall b | b in index :: UndoKept(b, old(b.undo))
      ensures ok ==> At(view, End(path, fork), steady)
      ensures ok ==> forall i | 0 <= i < |path| && path[i].pprev != null :: path[i].undo != None
      ensures ok == forall i | 0 <= i < |path| :: Accepted(path[i], checks)
      ensures pindexGenesisBlock == old(pindexGenesisBlock) ||
        (path != [] && path[0].pprev == null && pindexGenesisBlock == path[0])
      ensures ok && path != [] && path[0].pprev == null ==> pindexGenesisBlock == path[0]
    {
      hide *;
      forall b | b in index
        ensures b !in view.Repr
      {
        view.OwnsOnlyViews(b);
      }
      view.OwnsOnlyViews(this);
      EndOfNothing(fork);
      for i := 0 to |path|
        invariant view.Beneath() == old(view.Beneath())
        invariant At(view, End(path[..i], fork), steady)
        invariant forall b | b in index :: UndoKept(b, old(b.undo))
        invariant forall j | 0 <= j < i :: Accepted(path[j], checks) && (path[j].pprev != null ==> path[j].undo != None)
        invariant pindexGenesisBlock == if i > 0 && path[0].pprev == null then path[0] else old(pindexGenesisBlock)
      {
        DescendsOnPath(path, i, fork);
        ok := ConnectStep(path[i], old(path[i].undo), view, checks, steady);
        if !ok {
          return;
        }
        if path[i].pprev == null {
          pindexGenesisBlock := path[i];
        }
      }
      assert path[..|path|] == path;
      ok := true;
    }

    static lemma UpPathUnrepeated(path: seq<BlockIndex>, to: BlockIndex, fork: BlockIndex?)
      requires UpPath(path, to, fork)
      ensures UnrepeatedBranch(to) ==> forall i | 0 <= i < |path| :: UnrepeatedBranch(path[i])
    {
      hide WellFormed, Ancestor, Unrepeated;
      if UnrepeatedBranch(to) {
        forall i | 0 <= i < |path|
          ensures UnrepeatedBranch(path[i])
        {
          UnrepeatedBelow(to, HeightOf(fork) + 1 + i);
        }
      }
    }

    static lemma RootUndisturbed(b: BlockIndex, w: View)
      requires WellFormed(b) && b.pprev == null && Undisturbed(w, null)
      ensures Undisturbed(w, b)
    {
    }

    static lemma EndOfNothing(fork: BlockIndex?)
      ensures End([], fork) == fork
    {
    }

    static lemma DescendsOnPath(path: seq<BlockIndex>, i: nat, fork: BlockIndex?)
      requires i < |path| && Descends(path[i], Previous(path, i, fork))
      ensures WellFormed(path[i]) && path[i].pprev == End(path[..i], fork)
      ensures End(path[..i + 1], fork) == path[i]
      ensures i > 0 ==> path[i].pprev != null
    {
    }

    static method ConnectStep(b: BlockIndex, ghost was: Option<BlockUndo>, view: CoinsViewCache,
                              checks: BlockIndex -> bool,
                              ghost steady: bool)
      returns (ok: bool)
      requires view.Valid() && WellFormed(b) && At(view, b.pprev, steady) && UndoKept(b, was)
      requires steady ==> UnrepeatedBranch(b)
      modifies view.Repr, b`undo
      ensures view.Beneath() == old(view.Beneath())
      ensures ok == Accepted(b, checks)
      ensures ok ==> At(view, b, steady) && (b.pprev != null ==> b.undo != None)
      ensures UndoKept(b, was) && (old(b.undo) != None ==> b.undo != None)
    {
      hide SameView, CheckBlock, Undisturbed, Unrepeated;
      ghost var before := view.Visible();
      ok := ConnectBlock(b, view, checks(b));
      if b.pprev != null {
        ConnectReplay(b, before);
        if ok && steady {
          ConnectUndisturbed(b, before);
        }
      } else if ok && steady {
        RootUndisturbed(b, before);
      }
    }

    /** Connecting fails exactly where a replay or one of the other checks does. */
    static ghost predicate Accepted(b: BlockIndex, checks: BlockIndex -> bool)
    {
      WellFormed(b) && Replay(b) != None && (b.pprev != null ==> checks(b))
    }

    /** On the branch of `pindexNew` but not on that of `tip`. */
    static ghost predicate NewlyConnected(b: BlockIndex, tip: BlockIndex?, pindexNew: BlockIndex) {
      && WellFormed(pindexNew) && IsAncestor(b, pindexNew)
      && !(tip != null && WellFormed(tip) && IsAncestor(b, tip))
    }

    static ghost function End(path: seq<BlockIndex>, fork: BlockIndex?): BlockIndex? {
      if path == [] then fork else path[|path| - 1]
    }

    /** Redirect the links from the old branch to the new one. */
    method Relink(vDisconnect: seq<BlockIndex>, vConnect: seq<BlockIndex>)
      requires forall b | b in vDisconnect && b.pprev != null :: b.pprev in index
      requires forall b | b in vConnect && b.pprev != null :: b.pprev in index
      requires forall i, j | 0 <= i < j < |vConnect| :: vConnect[i].pprev != vConnect[j].pprev
      modifies index`pnext
      ensures forall i | 0 <= i < |vConnect| && vConnect[i].pprev != null :: vConnect[i].pprev.pnext == vConnect[i]
      ensures forall b | b in index && (forall c | c in vConnect :: c.pprev != b) ::
        b.pnext == if exists d | d in vDisconnect :: d.pprev == b then null else old(b.pnext)
    {
      for i := 0 to |vDisconnect|
        invariant forall b | b in index ::
          b.pnext == if exists d | d in vDisconnect[..i] :: d.pprev == b then null else old(b.pnext)
      {
        assert vDisconnect[..i + 1] == vDisconnect[..i] + [vDisconnect[i]];
        if vDisconnect[i].pprev != null {
          vDisconnect[i].pprev.pnext := null;
        }
      }
      assert vDisconnect[..|vDisconnect|] == vDisconnect;
      for i := 0 to |vConnect|
        invariant forall j | 0 <= j < i && vConnect[j].pprev != null :: vConnect[j].pprev.pnext == vConnect[j]
        invariant forall b | b in index && (forall c | c in vConnect :: c.pprev != b) ::
          b.pnext == if exists d | d in vDisconnect :: d.pprev == b then null else old(b.pnext)
      {
        if vConnect[i].pprev != null {
          vConnect[i].pprev.pnext := vConnect[i];
        }
      }
    }

    /** Work out the way from the current tip to `pindexNew` and go it on a scratch view. */
    method GoOnScratch(pindexNew: BlockIndex, checks: BlockIndex -> bool, ghost steady: bool)
      returns (ok: bool, view: CoinsViewCache, ghost fork: BlockIndex?, vDisconnect: seq<BlockIndex>,
               vConnect: seq<BlockIndex>)
      requires Valid() && pindexNew in index
      requires steady ==> Undisturbed(pcoinsTip.Visible(), pindexBest)
      modifies pcoinsTip.Repr, index`undo, `pindexGenesisBlock
      ensures pcoinsTip.Visible() == old(pcoinsTip.Visible()) && pcoinsTip.Tip() == old(pcoinsTip.Tip())
      ensures pcoinsTip.Beneath() == old(pcoinsTip.Beneath())
      ensures forall b | b in index :: UndoKept(b, old(b.undo))
      ensures WellFormed(pindexNew) && (pindexBest != null ==> WellFormed(pindexBest))
      ensures IsFork(fork, pindexBest, pindexNew)
      ensures forall b | b in vDisconnect || b in vConnect :: b in index
      ensures DownPath(vDisconnect, pindexBest, fork) && UpPath(vConnect, pindexNew, fork)
      ensures view.Valid() && view.base == pcoinsTip && fresh(view) && view.Repr == pcoinsTip.Repr + {view}
      ensures ok ==> At(view, pindexNew, steady && UnrepeatedBranch(pindexNew))
      ensures ok ==> forall i | 0 <= i < |vConnect| && vConnect[i].pprev != null :: vConnect[i].undo != None
      ensures ok <==>
        CleanDown(old(pcoinsTip.Visible()), vDisconnect) && forall i | 0 <= i < |vConnect| ::
          Accepted(vConnect[i], checks)
      ensures steady && CanonicalBlocks(vDisconnect) ==> CleanDown(old(pcoinsTip.Visible()), vDisconnect)
      ensures pindexGenesisBlock == old(pindexGenesisBlock) ||
        (pindexBest == null && pindexGenesisBlock == Ancestor(pindexNew, 0))
      ensures ok && pindexBest == null ==> pindexGenesisBlock == Ancestor(pindexNew, 0)
    {
      hide *;
      var tip;
      view, tip := OpenScratch(steady);
      view.BeneathIsBase();
      Parts();
      forall b | b in index
        ensures b !in view.Repr
      {
        view.OwnsOnlyViews(b);
      }
      view.OwnsOnlyViews(this);
      ok, fork, vDisconnect, vConnect := GoFrom(view, tip, pindexNew, checks, steady);
      view.BeneathIsBase();
    }

    method GoFrom(view: CoinsViewCache, tip: BlockIndex?, pindexNew: BlockIndex, checks: BlockIndex -> bool,
                  ghost steady: bool)
      returns (ok: bool, fork: BlockIndex?, vDisconnect: seq<BlockIndex>, vConnect: seq<BlockIndex>)
      requires view.Valid() && At(view, tip, steady)
      requires IsTree(index) && pindexNew in index && (tip != null ==> tip in index)
      requires UndoIsReplayed(index) && UndoIsThere(index, tip) && forall b | b in index :: UndoKept(b, b.undo)
      modifies view.Repr, index`undo, `pindexGenesisBlock
      ensures view.Beneath() == old(view.Beneath())
      ensures forall b | b in index :: UndoKept(b, old(b.undo))
      ensures WellFormed(pindexNew) && (tip != null ==> WellFormed(tip)) && IsFork(fork, tip, pindexNew)
      ensures forall b | b in vDisconnect || b in vConnect :: b in index
      ensures DownPath(vDisconnect, tip, fork) && UpPath(vConnect, pindexNew, fork)
      ensures ok ==> At(view, pindexNew, steady && UnrepeatedBranch(pindexNew))
      ensures ok ==> forall i | 0 <= i < |vConnect| && vConnect[i].pprev != null :: vConnect[i].undo != None
      ensures ok <==>
        CleanDown(old(view.Visible()), vDisconnect) && forall i | 0 <= i < |vConnect| :: Accepted(vConnect[i], checks)
      ensures steady && CanonicalBlocks(vDisconnect) ==> CleanDown(old(view.Visible()), vDisconnect)
      ensures pindexGenesisBlock == old(pindexGenesisBlock) ||
        (tip == null && pindexGenesisBlock == Ancestor(pindexNew, 0))
      ensures ok && tip == null ==> pindexGenesisBlock == Ancestor(pindexNew, 0)
    {
      hide *;
      forall b | b in index
        ensures b !in view.Repr
      {
        view.OwnsOnlyViews(b);
      }
      view.OwnsOnlyViews(this);
      ForkOfTree(index, tip, pindexNew);
      fork := FindFork(tip, pindexNew);
      ForkEnds(fork, tip, pindexNew);
      vDisconnect := PathDown(tip, fork);
      var reversed := PathDown(pindexNew, fork);
      vConnect := Reversed(reversed);
      ReversedPath(reversed, pindexNew, fork);
      DownPathStarts(vDisconnect, tip, fork);
      DownPathCanBeUndone(index, vDisconnect, tip, fork);
      UpPathDescends(index, vConnect, pindexNew, fork);
      FromTheRoot(vConnect, pindexNew, fork);
      UpPathUnrepeated(vConnect, pindexNew, fork);
      ok := DisconnectBranch(view, vDisconnect, fork, steady);
      if ok {
        ClaimLess(view, fork, steady, steady && UnrepeatedBranch(pindexNew));
        ok := ConnectBranch(view, vConnect, fork, checks, steady && UnrepeatedBranch(pindexNew));
      }
    }

    static lemma ClaimLess(view: CoinsViewCache, b: BlockIndex?, steady: bool, less: bool)
      requires view.Valid() && At(view, b, steady) && (less ==> steady)
      ensures At(view, b, less)
    {
    }

    /** The same; whatever happens, the state stays valid. */
    method SwitchView(pindexNew: BlockIndex, checks: BlockIndex -> bool, ghost steady: bool)
      returns (ok: bool, view: CoinsViewCache, ghost fork: BlockIndex?, vDisconnect: seq<BlockIndex>,
               vConnect: seq<BlockIndex>)
      requires Valid() && pindexNew in index
      requires steady ==> Undisturbed(pcoinsTip.Visible(), pindexBest)
      modifies pcoinsTip.Repr, index`undo, `pindexGenesisBlock
      ensures Valid() && pcoinsTip.Visible() == old(pcoinsTip.Visible())
      ensures pcoinsTip.Beneath() == old(pcoinsTip.Beneath())
      ensures WellFormed(pindexNew) && (pindexBest != null ==> WellFormed(pindexBest))
      ensures IsFork(fork, pindexBest, pindexNew)
      ensures forall b | b in vDisconnect || b in vConnect :: b in index
      ensures DownPath(vDisconnect, pindexBest, fork) && UpPath(vConnect, pindexNew, fork)
      ensures view.Valid() && view.base == pcoinsTip && fresh(view) && view.Repr == pcoinsTip.Repr + {view}
      ensures ok ==> At(view, pindexNew, steady && UnrepeatedBranch(pindexNew))
      ensures ok ==> forall i | 0 <= i < |vConnect| && vConnect[i].pprev != null :: vConnect[i].undo != None
      ensures ok <==>
        CleanDown(old(pcoinsTip.Visible()), vDisconnect) && forall i | 0 <= i < |vConnect| ::
          Accepted(vConnect[i], checks)
      ensures steady && CanonicalBlocks(vDisconnect) ==> CleanDown(old(pcoinsTip.Visible()), vDisconnect)
      ensures ok ==> pindexGenesisBlock == Ancestor(pindexNew, 0)
    {
      hide *;
      Parts();
      ghost var genesis, coins := pindexGenesisBlock, pcoinsTip.Visible();
      ghost var was := map b | b in index :: b.undo;
      UndoWasThere(index, pindexBest);
      SameRoot(index, pindexBest, pindexNew);
      forall b | b in index
        ensures b !in pcoinsTip.Repr
      {
        pcoinsTip.OwnsOnlyViews(b);
      }
      pcoinsTip.OwnsOnlyViews(this);
      ok, view, fork, vDisconnect, vConnect := GoOnScratch(pindexNew, checks, steady);
      ShownSame(pcoinsTip, coins, pindexBest);
      PointersKept(genesis);
      UndoKeptIsReplayed(index, pindexBest, was);
      Whole();
    }

    static lemma SameRoot(index: set<BlockIndex>, tip: BlockIndex?, to: BlockIndex)
      requires IsTree(index) && to in index && (tip != null ==> tip in index)
      ensures WellFormed(to) && Ancestor(to, 0) in index && Ancestor(to, 0).pprev == null
      ensures tip != null ==> WellFormed(tip) && Ancestor(tip, 0) == Ancestor(to, 0)
    {
      AncestorInTree(index, to, 0);
      if tip != null {
        OneRoot(index, tip, to);
      }
    }

    static lemma ShownSame(view: CoinsViewCache, coins: View, tip: BlockIndex?)
      requires view.Valid() && view.Visible() == coins && view.Tip() == tip && ShowsCoins(coins, tip)
      ensures Shows(view, tip)
    {
    }

    /** A scratch view over the global one. */
    method OpenScratch(ghost steady: bool) returns (view: CoinsViewCache, tip: BlockIndex?)
      requires Valid() && (steady ==> Undisturbed(pcoinsTip.Visible(), pindexBest))
      modifies pcoinsTip.Repr
      ensures Valid() && pcoinsTip.Visible() == old(pcoinsTip.Visible()) && pcoinsTip.Tip() == old(pcoinsTip.Tip())
      ensures pcoinsTip.Beneath() == old(pcoinsTip.Beneath())
      ensures unchanged(this) && forall b | b in index :: b.undo == old(b.undo)
      ensures view.Valid() && view.base == pcoinsTip && fresh(view) && view.Repr == pcoinsTip.Repr + {view}
      ensures At(view, pindexBest, steady) && tip == pindexBest && view.Visible() == pcoinsTip.Visible()
    {
      hide SameView, Undisturbed, IsTree, Linked, UndoIsReplayed, UndoIsThere, Pointers, Replay;
      view := new CoinsViewCache.Over(pcoinsTip);
      assert view.Visible() == pcoinsTip.Visible();
      view.BeneathIsBase();
      tip := view.GetBestBlock();
      view.BeneathIsBase();
    }

    /** What the level below the global view holds are the coins of `b`. */
    ghost predicate Stores(b: BlockIndex?)
      requires pcoinsTip.Valid()
      reads pcoinsTip.Repr
    {
      pcoinsTip.BelowTips()[0] == b && ShowsCoins(pcoinsTip.Below()[0], b)
    }

    /** Push the scratch view to the global one, and at times that one to the database. */
    method CommitCoins(view: CoinsViewCache, pindexNew: BlockIndex, flushTip: bool, ghost steady: bool)
      requires view.Valid() && view.base == pcoinsTip && At(view, pindexNew, steady)
      modifies view.Repr
      ensures Shows(pcoinsTip, pindexNew)
      ensures steady ==> Undisturbed(pcoinsTip.Visible(), pindexNew)
      ensures flushTip ==> Stores(pindexNew)
      ensures !flushTip ==> pcoinsTip.Beneath() == old(pcoinsTip.Beneath())
    {
      hide SameView, Undisturbed, DropsPruned;
      view.BeneathIsBase();
      view.Flush();
      view.BeneathIsBase();
      assert pcoinsTip.Visible() == view.Visible();
      if flushTip {
        ghost var shown := pcoinsTip.Visible();
        pcoinsTip.Flush();
        if pcoinsTip.base == null {
          DropsPrunedKeeps(shown, pcoinsTip.Visible(), pindexNew);
        }
      }
    }

    static lemma SameViewThrough(a: View, b: View, c: View)
      requires SameView(a, b) && SameView(b, c)
      ensures SameView(a, c)
    {
      hide SameCoins;
      forall txid: Hash
        ensures SameCoins(Entry(a, txid), Entry(c, txid))
      {
        assert SameCoins(Entry(a, txid), Entry(b, txid)) && SameCoins(Entry(b, txid), Entry(c, txid));
        SameCoinsThrough(Entry(a, txid), Entry(b, txid), Entry(c, txid));
      }
    }

    static lemma SameCoinsThrough(a: Coins, b: Coins, c: Coins)
      requires SameCoins(a, b) && SameCoins(b, c)
      ensures SameCoins(a, c)
    {
    }

    static lemma DropsPrunedKeeps(a: View, b: View, tip: BlockIndex)
      requires DropsPruned(a, b) && ShowsCoins(a, tip)
      ensures ShowsCoins(b, tip)
      ensures Undisturbed(a, tip) ==> Undisturbed(b, tip)
    {
      hide Undisturbed, DropsPruned, SameView, Replay, WellFormed;
      DroppingPrunedIsInvisible(a, b);
      SameViewThrough(Replay(tip).value, a, b);
      if Undisturbed(a, tip) {
        DropsPrunedUndisturbed(a, b, tip);
      }
    }

    /** The blocks of the path up are those that are newly connected. */
    static lemma UpPathIsNew(index: set<BlockIndex>, path: seq<BlockIndex>, tip: BlockIndex?, to: BlockIndex,
                             fork: BlockIndex?)
      requires IsTree(index) && to in index && (tip != null ==> WellFormed(tip))
      requires UpPath(path, to, fork) && IsFork(fork, tip, to)
      ensures forall b :: b in path <==> b in index && NewlyConnected(b, tip, to)
    {
      hide *;
      forall b | b in index && NewlyConnected(b, tip, to)
        ensures b in path
      {
        NewIsOnPath(path, tip, to, fork, b);
      }
      forall b | b in path
        ensures b in index && NewlyConnected(b, tip, to)
      {
        var i :| 0 <= i < |path| && path[i] == b;
        OnPathIsNew(index, path, tip, to, fork, i);
      }
    }

    static lemma NewIsOnPath(path: seq<BlockIndex>, tip: BlockIndex?, to: BlockIndex, fork: BlockIndex?, b: BlockIndex)
      requires (tip != null ==> WellFormed(tip)) && UpPath(path, to, fork) && IsFork(fork, tip, to)
      requires NewlyConnected(b, tip, to)
      ensures b in path
    {
      hide WellFormed, Ancestor;
      if b.nHeight <= HeightOf(fork) {
        BelowForkIsShared(fork, tip, to, b);
      } else {
        assert path[b.nHeight - HeightOf(fork) - 1] == b;
      }
    }

    static lemma BelowForkIsShared(fork: BlockIndex?, tip: BlockIndex?, to: BlockIndex, b: BlockIndex)
      requires WellFormed(to) && (tip != null ==> WellFormed(tip)) && IsFork(fork, tip, to)
      requires IsAncestor(b, to) && b.nHeight <= HeightOf(fork)
      ensures tip != null && WellFormed(tip) && IsAncestor(b, tip)
    {
      hide WellFormed, Ancestor;
      AncestorOfAncestor(to, fork.nHeight, b.nHeight);
      AncestorOfAncestor(tip, fork.nHeight, b.nHeight);
    }

    static lemma OnPathIsNew(index: set<BlockIndex>, path: seq<BlockIndex>, tip: BlockIndex?, to: BlockIndex,
                             fork: BlockIndex?, i: nat)
      requires IsTree(index) && to in index && (tip != null ==> WellFormed(tip))
      requires UpPath(path, to, fork) && IsFork(fork, tip, to) && i < |path|
      ensures path[i] in index && NewlyConnected(path[i], tip, to)
    {
      UpPathAt(path, to, fork, i);
      AboveFork(fork, tip, to, HeightOf(fork) + 1 + i);
      hide IsTree, UpPath, IsFork, WellFormed, Ancestor;
      AncestorInTree(index, to, path[i].nHeight);
    }

    static lemma AboveFork(fork: BlockIndex?, tip: BlockIndex?, to: BlockIndex, h: nat)
      requires WellFormed(to) && (tip != null ==> WellFormed(tip)) && IsFork(fork, tip, to)
      requires HeightOf(fork) < h <= to.nHeight
      ensures NewlyConnected(Ancestor(to, h), tip, to)
    {
      hide WellFormed, Ancestor;
    }

    /** Blocks of the new branch have undo data: the shared ones had it, the others got it. */
    static lemma UndoIsThereAfter(index: set<BlockIndex>, path: seq<BlockIndex>, tip: BlockIndex?, to: BlockIndex,
                                  fork: BlockIndex?)
      requires IsTree(index) && to in index && (tip != null ==> tip in index)
      requires UpPath(path, to, fork) && IsFork(fork, tip, to)
      requires UndoIsThere(index, tip)
      requires forall i | 0 <= i < |path| && path[i].pprev != null :: path[i].undo != None
      ensures UndoIsThere(index, to)
    {
      UpPathIsNew(index, path, tip, to, fork);
      forall b | b in index && b.pprev != null && IsAncestor(b, to)
        ensures b.undo != None
      {
        hide WellFormed, Ancestor;
        if NewlyConnected(b, tip, to) {
          assert b in path;
        }
      }
    }

    static lemma ParentOnPath(path: seq<BlockIndex>, to: BlockIndex, fork: BlockIndex?, b: BlockIndex)
      requires UpPath(path, to, fork)
      ensures forall i | 0 <= i < |path| && path[i].pprev == b :: Link(to, b) == path[i]
      ensures HeightOf(fork) <= b.nHeight && Link(to, b) != null ==> exists i :: 0 <= i < |path| && path[i].pprev == b
    {
      forall i | 0 <= i < |path| && path[i].pprev == b
        ensures Link(to, b) == path[i]
      {
        AncestorStep(to, path[i].nHeight);
      }
      if HeightOf(fork) <= b.nHeight && Link(to, b) != null {
        var i := b.nHeight - HeightOf(fork);
        AncestorStep(to, b.nHeight + 1);
        assert path[i].pprev == b;
      }
    }

    static lemma ParentOnDownPath(path: seq<BlockIndex>, tip: BlockIndex?, fork: BlockIndex?, b: BlockIndex)
      requires DownPath(path, tip, fork)
      ensures (exists d | d in path :: d.pprev == b) <==> (Link(tip, b) != null && HeightOf(fork) <= b.nHeight)
    {
      assert tip != null ==> WellFormed(tip);
      hide DownPath, WellFormed, Link;
      if d: BlockIndex :| d in path && d.pprev == b {
        var i :| 0 <= i < |path| && path[i] == d;
        ParentOfPathBlock(path, tip, fork, b, i);
      }
      if Link(tip, b) != null && HeightOf(fork) <= b.nHeight {
        PathBlockOfParent(path, tip, fork, b);
      }
    }

    static lemma ParentOfPathBlock(path: seq<BlockIndex>, tip: BlockIndex?, fork: BlockIndex?, b: BlockIndex, i: nat)
      requires DownPath(path, tip, fork) && i < |path| && path[i].pprev == b
      ensures Link(tip, b) != null && HeightOf(fork) <= b.nHeight
    {
      AncestorStep(tip, tip.nHeight - i);
    }

    static lemma PathBlockOfParent(path: seq<BlockIndex>, tip: BlockIndex?, fork: BlockIndex?, b: BlockIndex)
      requires DownPath(path, tip, fork) && Link(tip, b) != null && HeightOf(fork) <= b.nHeight
      ensures exists d | d in path :: d.pprev == b
    {
      AncestorStep(tip, b.nHeight + 1);
      assert path[tip.nHeight - b.nHeight - 1].pprev == b;
    }

    /** Below the fork the two branches have the same links. */
    static lemma LinksBelowFork(tip: BlockIndex?, to: BlockIndex, fork: BlockIndex?, b: BlockIndex)
      requires WellFormed(to) && (tip != null ==> WellFormed(tip)) && IsFork(fork, tip, to)
      requires b.nHeight < HeightOf(fork)
      ensures Link(tip, b) == Link(to, b)
    {
      AncestorOfAncestor(tip, fork.nHeight, b.nHeight);
      AncestorOfAncestor(to, fork.nHeight, b.nHeight);
      AncestorOfAncestor(tip, fork.nHeight, b.nHeight + 1);
      AncestorOfAncestor(to, fork.nHeight, b.nHeight + 1);
    }

    /** What Relink leaves is the links of the new branch. */
    static lemma LinksAfter(tip: BlockIndex?, to: BlockIndex, fork: BlockIndex?, down: seq<BlockIndex>,
                            up: seq<BlockIndex>, b: BlockIndex)
      requires WellFormed(to) && (tip != null ==> WellFormed(tip)) && IsFork(fork, tip, to)
      requires DownPath(down, tip, fork) && UpPath(up, to, fork)
      ensures forall i | 0 <= i < |up| && up[i].pprev == b :: Link(to, b) == up[i]
      ensures (forall c | c in up :: c.pprev != b) ==>
        Link(to, b) == if exists d | d in down :: d.pprev == b then null else Link(tip, b)
    {
      hide WellFormed, Ancestor;
      ParentOnPath(up, to, fork, b);
      ParentOnDownPath(down, tip, fork, b);
      if b.nHeight < HeightOf(fork) {
        LinksBelowFork(tip, to, fork, b);
      }
    }

    static lemma DistinctParents(path: seq<BlockIndex>, to: BlockIndex, fork: BlockIndex?)
      requires UpPath(path, to, fork)
      ensures forall i, j | 0 <= i < j < |path| :: path[i].pprev != path[j].pprev
    {
      forall i, j | 0 <= i < j < |path|
        ensures path[i].pprev != path[j].pprev
      {
        assert path[j].pprev.nHeight == path[j].nHeight - 1;
      }
    }

    static lemma UndoKeptIsReplayed(index: set<BlockIndex>, tip: BlockIndex?, was: map<BlockIndex, Option<BlockUndo>>)
      requires IsTree(index) && (tip != null ==> WellFormed(tip))
      requires index <= was.Keys && forall b | b in index :: UndoKept(b, was[b])
      requires forall b | b in index && b.pprev != null && tip != null && IsAncestor(b, tip) :: was[b] != None
      ensures UndoIsReplayed(index) && UndoIsThere(index, tip)
    {
    }

    static lemma UndoWasThere(index: set<BlockIndex>, tip: BlockIndex?)
      requires IsTree(index) && (tip != null ==> WellFormed(tip)) && UndoIsThere(index, tip)
      ensures forall b | b in index && b.pprev != null && tip != null && IsAncestor(b, tip) :: b.undo != None
    {
    }

    static lemma LinkedMeans(index: set<BlockIndex>, tip: BlockIndex?)
      requires tip != null ==> WellFormed(tip)
      ensures Linked(index, tip) <==> forall b | b in index :: b.pnext == Link(tip, b)
    {
    }

    lemma PointersMean(root: BlockIndex)
      requires pindexBest != null && WellFormed(pindexBest) && nBestHeight == pindexBest.nHeight
      requires pblockindexFBBHLast == null
      requires IsTree(index) && pindexBest in index && pindexGenesisBlock == Ancestor(pindexBest, 0)
      ensures Pointers()
    {
      AncestorInTree(index, pindexBest, 0);
    }

    lemma PointersKept(was: BlockIndex?)
      requires pindexBest != null ==> WellFormed(pindexBest)
      requires nBestHeight == HeightOf(pindexBest)
      requires was != null ==> was in index && was.pprev == null
      requires pindexBest != null ==> was == Ancestor(pindexBest, 0)
      requires pblockindexFBBHLast != null ==> pindexBest != null && IsAncestor(pblockindexFBBHLast, pindexBest)
      requires pindexGenesisBlock == was || (pindexBest == null && pindexGenesisBlock != null &&
        pindexGenesisBlock in index && pindexGenesisBlock.pprev == null)
      ensures Pointers()
    {
    }

    static lemma TreeIsWellFormed(index: set<BlockIndex>, b: BlockIndex)
      requires IsTree(index) && b in index
      ensures WellFormed(b)
    {
    }

    /** What Relink leaves is the links of the new branch. */
    static lemma Relinked(index: set<BlockIndex>, tip: BlockIndex?, to: BlockIndex, fork: BlockIndex?,
                          down: seq<BlockIndex>, up: seq<BlockIndex>,
                          was: map<BlockIndex, BlockIndex?>)
      requires WellFormed(to) && (tip != null ==> WellFormed(tip)) && IsFork(fork, tip, to)
      requires DownPath(down, tip, fork) && UpPath(up, to, fork)
      requires index <= was.Keys && forall b | b in index :: was[b] == Link(tip, b)
      requires forall i | 0 <= i < |up| && up[i].pprev != null :: up[i].pprev.pnext == up[i]
      requires forall b | b in index && (forall c | c in up :: c.pprev != b) ::
        b.pnext == if exists d | d in down :: d.pprev == b then null else was[b]
      ensures Linked(index, to)
    {
      hide DownPath, UpPath, IsFork, WellFormed;
      forall b | b in index
        ensures b.pnext == Link(to, b)
      {
        LinksAfter(tip, to, fork, down, up, b);
        if c: BlockIndex :| c in up && c.pprev == b {
          var i :| 0 <= i < |up| && up[i] == c;
          assert up[i].pprev == b;
        }
      }
    }

    static lemma ParentsInTree(index: set<BlockIndex>, path: seq<BlockIndex>)
      requires IsTree(index) && forall b | b in path :: b in index
      ensures forall b | b in path && b.pprev != null :: b.pprev in index
    {
    }

    /** Make the new branch the active one. */
    method Activate(pindexNew: BlockIndex, ghost fork: BlockIndex?, vDisconnect: seq<BlockIndex>,
                    vConnect: seq<BlockIndex>)
      requires pcoinsTip.Valid() && IsTree(index) && pindexNew in index && (pindexBest != null ==> pindexBest in index)
      requires Shows(pcoinsTip, pindexNew) && UndoIsReplayed(index) && UndoIsThere(index, pindexNew)
      requires Linked(index, pindexBest) && IsFork(fork, pindexBest, pindexNew)
      requires DownPath(vDisconnect, pindexBest, fork) && UpPath(vConnect, pindexNew, fork)
      requires forall b | b in vDisconnect || b in vConnect :: b in index
      requires pindexGenesisBlock == Ancestor(pindexNew, 0)
      modifies this`pindexBest, this`pblockindexFBBHLast, this`nBestHeight, index`pnext
      ensures Valid() && pindexBest == pindexNew
      ensures pcoinsTip.Beneath() == old(pcoinsTip.Beneath())
    {
      hide *;
      ghost var tip := pindexBest;
      ghost var next := map b | b in index :: b.pnext;
      TreeIsWellFormed(index, pindexNew);
      if tip != null {
        TreeIsWellFormed(index, tip);
      }
      LinkedMeans(index, tip);
      DistinctParents(vConnect, pindexNew, fork);
      ParentsInTree(index, vDisconnect);
      ParentsInTree(index, vConnect);
      pcoinsTip.OwnsOnlyViews(this);
      forall b | b in index
        ensures b !in pcoinsTip.Repr
      {
        pcoinsTip.OwnsOnlyViews(b);
      }
      Relink(vDisconnect, vConnect);
      Relinked(index, tip, pindexNew, fork, vDisconnect, vConnect, next);
      pindexBest := pindexNew;
      pblockindexFBBHLast := null;
      nBestHeight := pindexNew.nHeight;
      PointersMean(pindexGenesisBlock);
      Whole();
    }

    /** Make `pindexNew` the tip of the active chain, if the coins allow it.  `checks` says of each
        block whether everything passed that does not concern which outputs exist; `flushTip`
        whether this is a time to write the cached coins to the database. */
    method SetBestChain(pindexNew: BlockIndex, checks: BlockIndex -> bool, flushTip: bool)
      returns (ok: bool, ghost fork: BlockIndex?, ghost down: seq<BlockIndex>)
      requires Valid() && pindexNew in index
      modifies this, index, pcoinsTip.Repr
      ensures Valid() && index == old(index)
      ensures pindexBest == if ok then pindexNew else old(pindexBest)
      ensures !ok ==> pcoinsTip.Visible() == old(pcoinsTip.Visible())
      ensures WellFormed(pindexNew) && (old(pindexBest) != null ==> WellFormed(old(pindexBest)))
      ensures IsFork(fork, old(pindexBest), pindexNew) && DownPath(down, old(pindexBest), fork)
      ensures ok <==>
        && CleanDown(old(pcoinsTip.Visible()), down)
        && forall b | b in index && NewlyConnected(b, old(pindexBest), pindexNew) :: Accepted(b, checks)
      ensures Undisturbed(old(pcoinsTip.Visible()), old(pindexBest)) && CanonicalBlocks(down) ==>
        CleanDown(old(pcoinsTip.Visible()), down)
      ensures Undisturbed(old(pcoinsTip.Visible()), old(pindexBest)) && UnrepeatedBranch(pindexNew) ==>
        Undisturbed(pcoinsTip.Visible(), pindexBest)
      ensures if ok && flushTip then Stores(pindexNew) else pcoinsTip.Beneath() == old(pcoinsTip.Beneath())
    {
      hide *;
      ghost var tip := pindexBest;
      Parts();
      ghost var steady := Undisturbed(pcoinsTip.Visible(), pindexBest);
      var view, vDisconnect, vConnect;
      ok, view, fork, vDisconnect, vConnect := SwitchView(pindexNew, checks, steady);
      down := vDisconnect;
      Parts();
      UpPathIsNew(index, vConnect, tip, pindexNew, fork);
      if !ok {
        return;
      }
      UndoIsThereAfter(index, vConnect, tip, pindexNew, fork);
      assert UndoIsReplayed(index) && Linked(index, tip);
      forall b | b in index
        ensures b !in view.Repr
      {
        view.OwnsOnlyViews(b);
      }
      view.OwnsOnlyViews(this);
      CommitCoins(view, pindexNew, flushTip, steady && UnrepeatedBranch(pindexNew));
      Activate(pindexNew, fork, vDisconnect, vConnect);
    }

    /** The block of the active chain at a given height, starting from the nearest of the root, the
        tip and the last answer. */
    method FindBlockByHeight(nHeight: nat) returns (pblockindex: BlockIndex, ghost steps: nat)
      requires Valid() && pindexBest != null && nHeight <= nBestHeight
      modifies this`pblockindexFBBHLast
      ensures Valid() && pblockindex == Ancestor(pindexBest, nHeight) && pblockindexFBBHLast == pblockindex
      ensures steps <= (nBestHeight + 1) / 2
      ensures old(pblockindexFBBHLast) != null ==> steps <= Distance(nHeight, old(pblockindexFBBHLast).nHeight)
    {
      hide *;
      Parts();
      var start := pindexBest;
      if nHeight < nBestHeight / 2 {
        start := pindexGenesisBlock;
      }
      OnBranch(pindexBest, 0);
      OnBranch(pindexBest, pindexBest.nHeight);
      if pblockindexFBBHLast != null &&
        Distance(nHeight, start.nHeight) > Distance(nHeight, pblockindexFBBHLast.nHeight) {
        start := pblockindexFBBHLast;
      }
      pblockindex, steps := WalkTo(start, nHeight);
      pblockindexFBBHLast := pblockindex;
      OnBranch(pindexBest, nHeight);
      PointersKept(pindexGenesisBlock);
      Whole();
    }

    static function Distance(a: nat, b: nat): (d: nat)
      ensures a + d == b || b + d == a
    {
      if a < b then b - a else a - b
    }

    static lemma OnBranch(tip: BlockIndex, h: nat)
      requires WellFormed(tip) && h <= tip.nHeight
      ensures IsAncestor(Ancestor(tip, h), tip) && Ancestor(tip, h).nHeight == h
      ensures h == tip.nHeight ==> Ancestor(tip, h) == tip
    {
    }

    /** Follow pprev down and pnext up from a block of the active chain. */
    method WalkTo(start: BlockIndex, nHeight: nat) returns (b: BlockIndex, ghost steps: nat)
      requires Valid() && pindexBest != null && nHeight <= nBestHeight
      requires WellFormed(pindexBest) && IsAncestor(start, pindexBest)
      ensures b == Ancestor(pindexBest, nHeight)
      ensures start.nHeight == nHeight + steps || nHeight == start.nHeight + steps
    {
      hide *;
      Parts();
      b, steps := start, 0;
      while b.nHeight > nHeight
        invariant IsAncestor(b, pindexBest) && start.nHeight == b.nHeight + steps
        invariant steps > 0 ==> b.nHeight >= nHeight
        decreases b.nHeight
      {
        StepDown(pindexBest, b);
        b := b.pprev;
        steps := steps + 1;
      }
      while b.nHeight < nHeight
        invariant IsAncestor(b, pindexBest) && b.nHeight <= nHeight
        invariant if start.nHeight > nHeight then b.nHeight == nHeight && start.nHeight == nHeight + steps
          else b.nHeight == start.nHeight + steps
        decreases nHeight - b.nHeight
      {
        StepUp(index, pindexBest, b);
        b := b.pnext;
        steps := steps + 1;
      }
      SameHeight(pindexBest, b, nHeight);
    }

    static lemma StepDown(tip: BlockIndex, b: BlockIndex)
      requires WellFormed(tip) && IsAncestor(b, tip) && b.nHeight > 0
      ensures b.pprev != null && IsAncestor(b.pprev, tip) && b.pprev.nHeight == b.nHeight - 1
    {
      AncestorStep(tip, b.nHeight);
    }

    static lemma StepUp(index: set<BlockIndex>, tip: BlockIndex, b: BlockIndex)
      requires IsTree(index) && tip in index && WellFormed(tip) && IsAncestor(b, tip) && b.nHeight < tip.nHeight
      requires Linked(index, tip)
      ensures b.pnext != null && IsAncestor(b.pnext, tip) && b.pnext.nHeight == b.nHeight + 1
    {
      hide WellFormed, IsTree;
      assert b in index by {
        AncestorInTree(index, tip, b.nHeight);
      }
      assert b.pnext == Link(tip, b) == Ancestor(tip, b.nHeight + 1);
    }

    static lemma SameHeight(tip: BlockIndex, b: BlockIndex, h: nat)
      requires WellFormed(tip) && h <= tip.nHeight && IsAncestor(b, tip) && b.nHeight == h
      ensures b == Ancestor(tip, h)
    {
    }

    static ghost predicate AllUnrepeated(targets: seq<BlockIndex>) {
      forall b | b in targets :: UnrepeatedBranch(b)
    }

    static lemma UnrepeatedAt(targets: seq<BlockIndex>, i: nat)
      requires i < |targets|
      ensures AllUnrepeated(targets) ==> UnrepeatedBranch(targets[i])
    {
      hide UnrepeatedBranch;
    }

    /** The last of the targets that was taken; without one, what there was before. */
    static ghost function LastTaken(targets: seq<BlockIndex>, taken: seq<bool>, was: BlockIndex?): BlockIndex?
      requires |targets| == |taken|
      decreases |targets|
    {
      if targets == [] then was
      else
        var last := |targets| - 1;
        if taken[last] then targets[last] else LastTaken(targets[..last], taken[..last], was)
    }

    static lemma LastTakenStep(targets: seq<BlockIndex>, taken: seq<bool>, i: nat, next: bool, was: BlockIndex?)
      requires i < |targets| && |taken| == i
      ensures LastTaken(targets[..i + 1], taken + [next], was) ==
        if next then targets[i] else LastTaken(targets[..i], taken, was)
    {
      assert targets[..i + 1][..i] == targets[..i] && (taken + [next])[..i] == taken;
    }

    static ghost function Both(a: seq<bool>, b: seq<bool>): (c: seq<bool>)
      requires |a| <= |b|
      ensures |c| == |a| && forall i | 0 <= i < |a| :: c[i] == (a[i] && b[i])
    {
      seq(|a|, i requires 0 <= i < |a| => a[i] && b[i])
    }

    static lemma BothStep(a: seq<bool>, next: bool, b: seq<bool>)
      requires |a| < |b|
      ensures Both(a + [next], b) == Both(a, b) + [next && b[|a|]]
    {
    }

    /** The level below holds the coins of the tip it names. */
    ghost predicate StoresItsTip()
      requires pcoinsTip.Valid()
      reads pcoinsTip.Repr
    {
      ShowsCoins(pcoinsTip.Below()[0], pcoinsTip.BelowTips()[0])
    }

    lemma StoredParts(b: BlockIndex?)
      requires pcoinsTip.Valid()
      ensures var (coins, tips) := pcoinsTip.Beneath();
        && coins != [] && tips != [] && pcoinsTip.BelowTips()[0] == tips[0]
        && (StoresItsTip() <==> ShowsCoins(coins[0], tips[0]))
        && (Stores(b) <==> b == tips[0] && ShowsCoins(coins[0], b))
    {
      hide ShowsCoins;
    }

    /** Over a database that is what is written to it. */
    lemma DatabaseStores(b: BlockIndex?)
      requires pcoinsTip.Valid() && pcoinsTip.base == null
      ensures Stores(b) <==> pcoinsTip.db.bestBlock == b && ShowsCoins(pcoinsTip.db.coins, b)
      ensures pcoinsTip.Beneath() == ([pcoinsTip.db.coins], [pcoinsTip.db.bestBlock])
    {
      hide ShowsCoins;
    }

    /** Any run of switches, successful or not: the tip is the last target reached, the coins are those
        of the tip, and the level below, which is what a restart finds, holds those of the last
        target that was reached at a time to write. */
    method Run(targets: seq<BlockIndex>, checks: seq<BlockIndex -> bool>, flushes: seq<bool>)
      returns (ghost oks: seq<bool>)
      requires Valid() && |targets| == |checks| == |flushes| && forall b | b in targets :: b in index
      modifies this, index, pcoinsTip.Repr
      ensures Valid() && index == old(index) && |oks| == |targets|
      ensures pindexBest == LastTaken(targets, oks, old(pindexBest))
      ensures ShowsCoins(pcoinsTip.Visible(), pindexBest)
      ensures pcoinsTip.BelowTips()[0] == LastTaken(targets, Both(oks, flushes), old(pcoinsTip.BelowTips()[0]))
      ensures old(StoresItsTip()) ==> StoresItsTip()
      ensures Undisturbed(old(pcoinsTip.Visible()), old(pindexBest)) && AllUnrepeated(targets) ==>
        Undisturbed(pcoinsTip.Visible(), pindexBest)
    {
      hide *;
      Parts();
      oks := [];
      ghost var stored := pcoinsTip.BelowTips()[0];
      NothingTaken(pindexBest);
      NothingTaken(stored);
      for i := 0 to |targets|
        invariant Valid() && index == old(index) && |oks| == i
        invariant Undisturbed(old(pcoinsTip.Visible()), old(pindexBest)) && AllUnrepeated(targets) ==>
          Undisturbed(pcoinsTip.Visible(), pindexBest)
        invariant pindexBest == LastTaken(targets[..i], oks, old(pindexBest))
        invariant pcoinsTip.BelowTips()[0] == LastTaken(targets[..i], Both(oks, flushes), stored)
        invariant old(StoresItsTip()) ==> StoresItsTip()
      {
        UnrepeatedAt(targets, i);
        StoredParts(targets[i]);
        var ok, _, _ := SetBestChain(targets[i], checks[i], flushes[i]);
        StoredParts(targets[i]);
        LastTakenStep(targets, oks, i, ok, old(pindexBest));
        LastTakenStep(targets, Both(oks, flushes), i, ok && flushes[i], stored);
        BothStep(oks, ok, flushes);
        oks := oks + [ok];
      }
      assert targets[..|targets|] == targets;
      Parts();
    }

    static lemma NothingTaken(was: BlockIndex?)
      ensures LastTaken([], [], was) == was
      ensures forall b :: Both([], b) == []
    {
    }

    /** The blocks of a branch, from the root to its tip. */
    static ghost function BranchBlocks(tip: BlockIndex?): seq<Block>
      requires tip != null ==> WellFormed(tip)
    {
      if tip == null then [] else BlocksOf(tip)
    }

    /** Two nodes whose active chains have the same blocks have the same unspent outputs and the
        same undo data, whatever they went through. */
    static lemma PathIndependence(a: ChainState, b: ChainState)
      requires a.Valid() && b.Valid() && BranchBlocks(a.pindexBest) == BranchBlocks(b.pindexBest)
      ensures SameView(a.pcoinsTip.Visible(), b.pcoinsTip.Visible())
      ensures a.nBestHeight == b.nBestHeight
      ensures a.pindexBest != null && b.pindexBest != null ==> SameUndoUpTo(a.pindexBest, b.pindexBest)
    {
      hide *;
      a.Parts();
      b.Parts();
      SameChainsShow(a.pcoinsTip.Visible(), b.pcoinsTip.Visible(), a.pindexBest, b.pindexBest);
      if a.pindexBest != null && b.pindexBest != null {
        SameUndo(a.index, b.index, a.pindexBest, b.pindexBest);
      }
    }

    static ghost predicate SameUndoUpTo(a: BlockIndex, b: BlockIndex)
      requires WellFormed(a) && WellFormed(b)
      reads set h | 0 <= h <= a.nHeight :: Ancestor(a, h), set h | 0 <= h <= b.nHeight :: Ancestor(b, h)
    {
      && a.nHeight == b.nHeight
      && forall h | 0 < h <= a.nHeight :: Ancestor(a, h).undo == Ancestor(b, h).undo != None
    }

    static lemma SameChainsShow(v: View, w: View, a: BlockIndex?, b: BlockIndex?)
      requires ShowsCoins(v, a) && ShowsCoins(w, b) && BranchBlocks(a) == BranchBlocks(b)
      ensures SameView(v, w) && HeightOf(a) == HeightOf(b)
    {
      hide WellFormed, Replay, SameView, BlocksOf;
      if a != null && b != null {
        SameBlocksReplay(a, b);
        ShownTwice(v, w, a);
      } else {
        ShownTwice(v, w, null);
      }
    }

    static lemma SameUndo(ia: set<BlockIndex>, ib: set<BlockIndex>, a: BlockIndex, b: BlockIndex)
      requires IsTree(ia) && a in ia && UndoIsReplayed(ia) && UndoIsThere(ia, a)
      requires IsTree(ib) && b in ib && UndoIsReplayed(ib) && UndoIsThere(ib, b)
      requires BranchBlocks(a) == BranchBlocks(b)
      ensures SameUndoUpTo(a, b)
    {
      hide WellFormed, BlocksOf, Ancestor, Replay, ReplayUndo, UndoIsReplayed, UndoIsThere;
      SameBlocksReplay(a, b);
      forall h | 0 < h <= a.nHeight
        ensures Ancestor(a, h).undo == Ancestor(b, h).undo != None
      {
        BlocksBelow(a, h);
        BlocksBelow(b, h);
        SameBlocksReplay(Ancestor(a, h), Ancestor(b, h));
        UndoAt(ia, a, h);
        UndoAt(ib, b, h);
      }
    }

    static lemma UndoAt(index: set<BlockIndex>, tip: BlockIndex, h: nat)
      requires IsTree(index) && tip in index && UndoIsReplayed(index) && UndoIsThere(index, tip) && 0 < h <= tip.nHeight
      ensures Ancestor(tip, h).undo == ReplayUndo(Ancestor(tip, h)) && Ancestor(tip, h).undo != None
    {
      hide WellFormed, Ancestor, ReplayUndo;
      AncestorInTree(index, tip, h);
      AncestorStep(tip, h);
      assert UndoKept(Ancestor(tip, h), Ancestor(tip, h).undo);
    }

    static lemma ShownTwice(a: View, b: View, tip: BlockIndex?)
      requires ShowsCoins(a, tip) && ShowsCoins(b, tip)
      ensures SameView(a, b)
    {
      var shown := if tip == null then map[] else Replay(tip).value;
      assert SameView(shown, a) && SameView(shown, b);
      forall txid: Hash
        ensures SameCoins(Entry(a, txid), Entry(b, txid))
      {
        assert SameCoins(Entry(shown, txid), Entry(a, txid)) && SameCoins(Entry(shown, txid), Entry(b, txid));
      }
    }

    /** What is unspent in the active chain's coins is what its blocks created and did not spend. */
    lemma TipOutputs(out: OutPoint)
      requires Valid()
      ensures pindexBest != null ==> WellFormed(pindexBest)
      ensures Utxo(pcoinsTip.Visible(), out) == if pindexBest == null then None else BranchUnspent(pindexBest, out)
    {
      hide *;
      Parts();
      ShownOutputs(pcoinsTip.Visible(), pindexBest, out);
    }

    static lemma ShownOutputs(coins: View, b: BlockIndex?, out: OutPoint)
      requires ShowsCoins(coins, b)
      ensures Utxo(coins, out) == if b == null then None else BranchUnspent(b, out)
    {
      hide SameView, Replay, BranchUnspent;
      if b == null {
        SameUtxo(map[], coins, out);
      } else {
        SameUtxo(Replay(b).value, coins, out);
        ReplayedOutputs(b, out);
      }
    }

    /** A block that is being connected has no next block, so marking it invalid does not start
        another reorganisation. */
    lemma NewlyConnectedHasNoNext(b: BlockIndex, pindexNew: BlockIndex)
      requires Valid() && b in index && NewlyConnected(b, pindexBest, pindexNew)
      ensures b.pnext == null
    {
      hide Shows, UndoIsReplayed, UndoIsThere;
      assert b.pnext == Link(pindexBest, b);
    }

    /** The active chain is exactly the blocks with a next one, plus the tip (the test of
        IsInMainChain). */
    lemma InMainChain(b: BlockIndex)
      requires Valid() && pindexBest != null && b in index
      ensures (b.pnext != null || b == pindexBest) <==> WellFormed(pindexBest) && IsAncestor(b, pindexBest)
    {
      hide Shows, UndoIsReplayed, UndoIsThere;
      assert b.pnext == Link(pindexBest, b);
    }
  }
}
