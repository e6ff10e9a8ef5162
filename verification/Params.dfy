/** Constants shared by the storage modules (param.h and fs.h). */
module Params {
  const MAXOPBLOCKS := 10
  const LOGSIZE := MAXOPBLOCKS * 3
  const NBUF := MAXOPBLOCKS * 3
  const BSIZE := 512

  datatype Option<+T> = None | Some(value: T)
}
