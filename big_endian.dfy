/**
 * Big-endian ("network order") encoding of 32-bit unsigned integers, the
 * byte order of every integer in a PNG datastream (PNG Specification,
 * Second Edition, section 7.1). Models Rust's `u32::to_be_bytes` and
 * `u32::from_be_bytes`.
 */
module BigEndian {

  /** The four bytes of `x`, most significant first. */
  function ToBytes(x: bv32): (r: seq<bv8>)
    ensures |r| == 4
    ensures x == r[0] as bv32 * 0x100_0000 + r[1] as bv32 * 0x1_0000 + r[2] as bv32 * 0x100 + r[3] as bv32
  {
    [(x >> 24) as bv8, ((x >> 16) & 0xFF) as bv8, ((x >> 8) & 0xFF) as bv8, (x & 0xFF) as bv8]
  }

  /** The value whose big-endian bytes are `b`. */
  function FromBytes(b: seq<bv8>): (x: bv32)
    requires |b| == 4
    ensures ToBytes(x) == b
  {
    (b[0] as bv32 << 24) | (b[1] as bv32 << 16) | (b[2] as bv32 << 8) | b[3] as bv32
  }

  /** Decoding undoes encoding. */
  lemma FromToBytes(x: bv32)
    ensures FromBytes(ToBytes(x)) == x
  {
  }

  /**
   * The byte order on two values from the source's examples: the declared
   * length 42 and the CRC 2882656334 (0xABD1D84E).
   */
  lemma ToBytesExamples()
    ensures ToBytes(42) == [0, 0, 0, 42]
    ensures ToBytes(2882656334) == [0xAB, 0xD1, 0xD8, 0x4E]
  {
  }

  /** Two values are equal exactly when their encodings are. */
  lemma ToBytesInjective(x: bv32, y: bv32)
    ensures ToBytes(x) == ToBytes(y) <==> x == y
  {
  }
}
