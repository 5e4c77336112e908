/** Compile-time constants shared by the kernel modules. */
module Params {
  const MAXOPBLOCKS: nat := 10
  const LOGBLOCKS: nat := 30   // MAXOPBLOCKS * 3
  const NBUF: nat := 30        // MAXOPBLOCKS * 3
  const BSIZE: nat := 1024     // bytes per block
  const WORDS: nat := 256      // BSIZE / sizeof(int)

  function Zeros(n: nat): seq<nat> { seq(n, _ => 0) }
}
