/**
 * CRC-32 as PNG uses it (PNG Specification, Second Edition, section 5.5;
 * the ISO-HDLC parameters): reflected polynomial 0xEDB88320, register
 * preset to all ones, result complemented. The chunk model uses only the
 * name `Crc32`; no proof looks inside its definition.
 */
module Crc {

  /** The reflected generator polynomial x^32 + x^26 + ... + x + 1. */
  const POLYNOMIAL: bv32 := 0xEDB8_8320

  /** One bit step of the reflected shift register. */
  function ShiftBit(register: bv32): bv32 {
    if register & 1 == 1 then (register >> 1) ^ POLYNOMIAL else register >> 1
  }

  /** `n` bit steps of the register. */
  function ShiftBits(register: bv32, n: nat): bv32
    decreases n
  {
    if n == 0 then register else ShiftBits(ShiftBit(register), n - 1)
  }

  /** Feeds `bytes` into the register, least significant bit of each byte first. */
  function Update(register: bv32, bytes: seq<bv8>): bv32
    decreases |bytes|
  {
    if bytes == [] then register
    else Update(ShiftBits(register ^ bytes[0] as bv32, 8), bytes[1..])
  }

  /** The CRC-32 of `bytes`. */
  function Crc32(bytes: seq<bv8>): bv32 {
    Update(0xFFFF_FFFF, bytes) ^ 0xFFFF_FFFF
  }

}
