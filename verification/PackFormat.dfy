// Constants shared by pack.c and unpack.c.
module PackFormat {
  import Common

  type Byte = Common.Byte

  const END := 256       // the symbol after every byte value
  const BLKSIZE := 512
  const BUFSIZ := 1024
  const LEVELS := 24     // the deepest tree the format allows
  const US: Byte := 31
  const RS: Byte := 30
}
