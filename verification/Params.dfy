/** param.h */
module Params {
  const MAXOPBLOCKS := 10               // blocks a file system operation may write
  const LOGSIZE := 3 * MAXOPBLOCKS      // data blocks in the on-disk log
}
