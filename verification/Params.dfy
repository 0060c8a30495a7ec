/** Limits shared by the kernel and the user programs (include/param.h, include/fs.h, include/mmu.h). */
module Params {
  const MAXOPBLOCKS: nat := 10          // blocks any one file-system operation may log
  const LOGSIZE: nat := MAXOPBLOCKS * 3 // data blocks in the on-disk log
  const NBUF: nat := MAXOPBLOCKS * 3    // buffers in the block cache
  const BSIZE: nat := 512               // bytes in a disk block
  const UINT: nat := 0x1_0000_0000      // number of values of a 32-bit unsigned int
}
