/** Blocks, their undo data, and the tree of block index entries. */
module BlockIndexes {
  import opened Transactions
  import opened Coins

  type TxUndo = seq<InUndo>

  /** One entry for every transaction but the coinbase. */
  type BlockUndo = seq<TxUndo>

  datatype Block = Block(hash: Hash, vtx: seq<Transaction>)

  class BlockIndex {
    const block: Block
    const pprev: BlockIndex?
    const nHeight: nat
    /** The next block of the active chain. */
    var pnext: BlockIndex?
    /** The undo data on disk, once it has been written. */
    var undo: Option<BlockUndo>

    constructor (block: Block, pprev: BlockIndex?)
      ensures this.block == block && this.pprev == pprev
      ensures this.nHeight == if pprev == null then 0 else pprev.nHeight + 1
      ensures this.pnext == null && this.undo == None
    {
      this.block := block;
      this.pprev := pprev;
      this.nHeight := if pprev == null then 0 else pprev.nHeight + 1;
      this.pnext := null;
      this.undo := None;
    }
  }
}
