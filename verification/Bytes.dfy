/** Shared value types: wire bytes, initialisation vectors and random words. */
module Bytes {
  datatype Option<+T> = None | Some(value: T)

  type byte = bv8

  /** The 16-byte AES-CTR initialisation vector. */
  type Iv = s: seq<byte> | |s| == 16
    witness [0, 0, 0, 0, 0, 0, 0, 0, 0, 0, 0, 0, 0, 0, 0, 0]

  /** One 32-bit draw of the hardware generator, as its four bytes in memory order. */
  type Word = s: seq<byte> | |s| == 4 witness [0, 0, 0, 0]
}
