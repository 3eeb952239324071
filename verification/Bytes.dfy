/** Bytes, and the number a little-endian run of them stands for. */
module Bytes {

  type Byte = b: int | 0 <= b < 256

  function LittleEndian(bytes: seq<Byte>): nat {
    if bytes == [] then 0 else bytes[0] + 256 * LittleEndian(bytes[1..])
  }
}
