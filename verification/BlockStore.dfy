/** Disk blocks as the log and the buffer cache see them.

A block is BSIZE = 512 bytes, viewed as 128 unsigned words; a disk is an array of
blocks, and one block write is atomic.  `Store` is the contract between the buffer
cache (bio.c) and the log (log.c): what the disk holds, and the buffered values of the
blocks that carry B_DIRTY and so differ, possibly, from the disk. */
module BlockStore {

  const WORDS: nat := 128

  type Block = b: seq<nat> | |b| == WORDS witness seq(WORDS, i => 0)

  type Disk = seq<Block>

  datatype Store = Store(disk: Disk, pinned: map<nat, Block>) {

    /** What bread returns: the pinned copy if there is one, else the disk's. */
    function Read(b: nat): Block
      requires b < |disk|
    {
      if b in pinned then pinned[b] else disk[b]
    }

    /** bwrite: the block reaches the disk and is no longer dirty. */
    function Write(b: nat, data: Block): Store
      requires b < |disk|
    {
      Store(disk[b := data], pinned - {b})
    }

    /** A modified buffer handed to log_write: pinned, disk untouched. */
    function Pin(b: nat, data: Block): Store
      requires b < |disk|
    {
      Store(disk, pinned[b := data])
    }
  }
}
