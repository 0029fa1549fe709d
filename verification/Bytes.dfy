/** Bytes and the few of them the parsers look for. */
module Bytes {

  newtype byte = n: int | 0 <= n < 256

  const NUL: byte := 0
  const LF: byte := '\n' as byte
  const CR: byte := '\r' as byte
  const SPACE: byte := ' ' as byte
}
