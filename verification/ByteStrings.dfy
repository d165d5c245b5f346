/** Bytes, and strings of them. */
module ByteStrings {
  type byte = n: int | 0 <= n < 256

  type Bytes = seq<byte>

  /** 32-bit unsigned numbers are below it. */
  const U32_LIMIT: nat := 0x1_0000_0000
}
