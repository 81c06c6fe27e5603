/**
 * The UTF-8 encoding of text (RFC 3629, section 3). A Rust `&str` is a
 * sequence of UTF-8 bytes: `s.len()` counts those bytes and `s.bytes()`
 * yields them. The model keeps text as a Dafny `string` (a sequence of
 * Unicode scalar values) and obtains the bytes with `Encode`.
 */
module Utf8 {

  /** True when every character of `s` is a 7-bit ASCII character. */
  predicate IsAscii(s: string) {
    forall i | 0 <= i < |s| :: (s[i] as int) < 0x80
  }

  /** The byte whose unsigned value is `n`. */
  function Byte(n: int): (b: bv8)
    requires 0 <= n < 0x100
    ensures b as int == n
  {
    n as bv8
  }

  /** The one to four bytes that encode the scalar value `c`. */
  function EncodeScalar(c: char): (r: seq<bv8>)
    ensures 1 <= |r| <= 4
    ensures (c as int) < 0x80 <==> |r| == 1
    ensures (c as int) < 0x80 <==> (r[0] as int) < 0x80
    ensures (c as int) < 0x80 ==> r[0] as int == c as int
  {
    var n := c as int;
    if n < 0x80 then
      [Byte(n)]
    else if n < 0x800 then
      assert n / 0x40 < 0x20;
      [Byte(0xC0 + n / 0x40), Byte(0x80 + n % 0x40)]
    else if n < 0x1_0000 then
      assert n / 0x1000 < 0x10;
      [Byte(0xE0 + n / 0x1000), Byte(0x80 + (n / 0x40) % 0x40), Byte(0x80 + n % 0x40)]
    else
      assert n / 0x4_0000 < 0x8;
      [Byte(0xF0 + n / 0x4_0000), Byte(0x80 + (n / 0x1000) % 0x40),
       Byte(0x80 + (n / 0x40) % 0x40), Byte(0x80 + n % 0x40)]
  }

  /** The UTF-8 bytes of `s` (what Rust's `str::bytes` yields). */
  function Encode(s: string): (r: seq<bv8>)
    ensures |r| >= |s|
    ensures |r| == |s| <==> IsAscii(s)
  {
    if s == [] then []
    else
      AsciiCons(s);
      EncodeScalar(s[0]) + Encode(s[1..])
  }

  /** A string is ASCII exactly when its first character and the rest are. */
  lemma AsciiCons(s: string)
    requires s != []
    ensures IsAscii(s) <==> (s[0] as int) < 0x80 && IsAscii(s[1..])
  {
  }

  /** True when every byte of `bytes` is below 0x80. */
  predicate SevenBit(bytes: seq<bv8>) {
    forall i | 0 <= i < |bytes| :: (bytes[i] as int) < 0x80
  }

  /** The encoding of `s` holds only 7-bit bytes exactly when `s` is ASCII. */
  lemma {:induction false} EncodeSevenBit(s: string)
    ensures IsAscii(s) <==> SevenBit(Encode(s))
  {
    if s != [] {
      AsciiCons(s);
      EncodeSevenBit(s[1..]);
      var head, tail := EncodeScalar(s[0]), Encode(s[1..]);
      assert Encode(s) == head + tail;
      SevenBitAppend(head, tail);
      assert SevenBit(head) <==> (s[0] as int) < 0x80 by {
        if (s[0] as int) < 0x80 { assert head == [head[0]]; }
      }
    }
  }

  /** A concatenation is 7-bit exactly when both parts are. */
  lemma SevenBitAppend(a: seq<bv8>, b: seq<bv8>)
    ensures SevenBit(a + b) <==> SevenBit(a) && SevenBit(b)
  {
    if SevenBit(a + b) {
      forall i | 0 <= i < |a| ensures (a[i] as int) < 0x80 {
        assert a[i] == (a + b)[i];
      }
      forall i | 0 <= i < |b| ensures (b[i] as int) < 0x80 {
        assert b[i] == (a + b)[|a| + i];
      }
    }
  }

  /** An ASCII string encodes to one byte per character, with the same value. */
  lemma {:induction false} EncodeAscii(s: string)
    requires IsAscii(s)
    ensures |Encode(s)| == |s|
    ensures forall i | 0 <= i < |s| :: Encode(s)[i] as int == s[i] as int
  {
    if s != [] {
      AsciiCons(s);
      EncodeAscii(s[1..]);
      forall i | 0 <= i < |s| ensures Encode(s)[i] as int == s[i] as int {
        if i > 0 { assert Encode(s)[i] == Encode(s[1..])[i - 1]; }
      }
    }
  }
}
