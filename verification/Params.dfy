/** The sizes that several parts of the system share. */
module Params {
  const MAXOPBLOCKS: nat := 10                  // blocks one operation may log
  const LOGSIZE: nat := MAXOPBLOCKS * 3         // block numbers in the log header
  const NBUF: nat := MAXOPBLOCKS * 3            // buffers in the cache
  const FSSIZE: nat := 1000                     // blocks of the file system that mkfs makes
}
