/**
 * The 4-byte PNG chunk type code (src/chunk_type.rs). Each byte is an
 * ASCII letter, and bit 5 (0x20, the lower-case bit) of each byte carries
 * one property of the chunk, as section 5.4 of the PNG Specification,
 * Second Edition, lays out: ancillary, private, reserved, safe-to-copy.
 */
module ChunkTypes {
  import opened Wrappers
  import Utf8

  /** Why a chunk type could not be built. */
  datatype ChunkTypeError =
    | NotAlphabetic  // "ChunkType must be alphabetic"
    | WrongLength    // "ChunkType string must be 4 characters long"

  /** Rust's `u8::is_ascii_alphabetic`: 'A'..='Z' or 'a'..='z'. */
  predicate IsAsciiAlphabetic(b: bv8) {
    0x41 <= b <= 0x5A || 0x61 <= b <= 0x7A
  }

  /** Rust's `u8::is_ascii_uppercase`: 'A'..='Z'. */
  predicate IsAsciiUppercase(b: bv8) {
    0x41 <= b <= 0x5A
  }

  /** Every one of the four bytes is an ASCII letter (`is_all_alphabetic`). */
  function IsAllAlphabetic(bytes: seq<bv8>): (r: bool)
    requires |bytes| == 4
    ensures r <==> forall i | 0 <= i < 4 :: 65 <= bytes[i] <= 90 || 97 <= bytes[i] <= 122
  {
    forall i | 0 <= i < 4 :: IsAsciiAlphabetic(bytes[i])
  }

  /** The four stored bytes, with the bit tests the source defines on them. */
  datatype TypeCode = TypeCode(firstByte: bv8, secondByte: bv8, thirdByte: bv8, fourthByte: bv8)
  {
    /** The bytes in order, as a 4-byte array. */
    function Bytes(): (r: seq<bv8>)
      ensures |r| == 4
    {
      [firstByte, secondByte, thirdByte, fourthByte]
    }

    /** Bit 5 of the first byte is clear: a decoder must understand the chunk. */
    function IsCritical(): (r: bool)
      ensures IsAsciiAlphabetic(firstByte) ==> (r <==> IsAsciiUppercase(firstByte))
    {
      firstByte & 0x20 == 0
    }

    /** Bit 5 of the second byte is clear: the type is registered, not private. */
    function IsPublic(): (r: bool)
      ensures IsAsciiAlphabetic(secondByte) ==> (r <==> IsAsciiUppercase(secondByte))
    {
      secondByte & 0x20 == 0
    }

    /** Bit 5 of the third byte is clear, as the reserved bit must be. */
    function IsReservedBitValid(): (r: bool)
      ensures IsAsciiAlphabetic(thirdByte) ==> (r <==> IsAsciiUppercase(thirdByte))
    {
      thirdByte & 0x20 == 0
    }

    /** Bit 5 of the fourth byte is set: editors may copy the chunk blindly. */
    function IsSafeToCopy(): (r: bool)
      ensures IsAsciiAlphabetic(fourthByte) ==> (r <==> !IsAsciiUppercase(fourthByte))
    {
      fourthByte & 0x20 != 0
    }

    /** The one structural rule beyond letters: the reserved bit is clear. */
    function IsValid(): (r: bool)
      ensures IsAsciiAlphabetic(thirdByte) ==> (r <==> IsAsciiUppercase(thirdByte))
    {
      IsReservedBitValid()
    }

    /**
     * `Display`: writes each byte, as the character with that code, one
     * after the other.
     */
    method Display() returns (s: string)
      ensures |s| == 4
      ensures forall i | 0 <= i < 4 :: s[i] as int == Bytes()[i] as int
    {
      var bytes := Bytes();
      s := "";
      for i := 0 to 4
        invariant |s| == i
        invariant forall k | 0 <= k < i :: s[k] as int == bytes[k] as int
      {
        s := s + [bytes[i] as char];
      }
    }
  }

  /**
   * A chunk type as the source can hold one: its fields are private and the
   * only ways to build it check that all four bytes are letters.
   */
  type ChunkType = t: TypeCode | IsAllAlphabetic(t.Bytes())
    witness TypeCode(0x41, 0x41, 0x41, 0x41)

  /** `TryFrom<[u8; 4]>`: accepts exactly the all-letter byte arrays, unchanged. */
  function TryFromBytes(bytes: seq<bv8>): (r: Result<ChunkType, ChunkTypeError>)
    requires |bytes| == 4
    ensures r.Ok? <==> forall i | 0 <= i < 4 :: 65 <= bytes[i] <= 90 || 97 <= bytes[i] <= 122
    ensures r.Ok? ==> r.value.Bytes() == bytes
    ensures r.Err? ==> r.error == NotAlphabetic
  {
    if !IsAllAlphabetic(bytes) then Err(NotAlphabetic)
    else Ok(TypeCode(bytes[0], bytes[1], bytes[2], bytes[3]))
  }

  /**
   * `FromStr`: the UTF-8 bytes of `s` must be exactly four; they are copied
   * into a zeroed 4-byte array, which is then checked as by `TryFromBytes`.
   */
  method FromStr(s: string) returns (r: Result<ChunkType, ChunkTypeError>)
    ensures |Utf8.Encode(s)| != 4 ==> r == Err(WrongLength)
    ensures |Utf8.Encode(s)| == 4 ==> r == TryFromBytes(Utf8.Encode(s))
  {
    var raw := Utf8.Encode(s);
    if |raw| != 4 {
      return Err(WrongLength);
    }
    var bytes := new bv8[4](_ => 0);
    for i := 0 to |raw|
      invariant bytes[..i] == raw[..i]
    {
      bytes[i] := raw[i];
    }
    assert bytes[..] == raw;
    r := TryFromBytes(bytes[..]);
  }

  /** Building from a chunk type's own bytes gives that chunk type back. */
  lemma BytesRoundTrip(t: ChunkType)
    ensures TryFromBytes(t.Bytes()) == Ok(t)
  {
  }

  /** Equality of chunk types is equality of their four bytes. */
  lemma EqualIffSameBytes(a: ChunkType, b: ChunkType)
    ensures a == b <==> a.Bytes() == b.Bytes()
  {
  }

  /**
   * On letters, each flag is a case test: critical, public and
   * reserved-bit-valid mean upper case in bytes 0, 1 and 2; safe-to-copy
   * means lower case in byte 3; and validity is the reserved-bit test.
   */
  lemma FlagsAreCaseTests(t: ChunkType)
    ensures t.IsCritical() <==> 'A' as bv8 <= t.firstByte <= 'Z' as bv8
    ensures t.IsPublic() <==> 'A' as bv8 <= t.secondByte <= 'Z' as bv8
    ensures t.IsReservedBitValid() <==> 'A' as bv8 <= t.thirdByte <= 'Z' as bv8
    ensures t.IsSafeToCopy() <==> 'a' as bv8 <= t.fourthByte <= 'z' as bv8
    ensures t.IsValid() <==> t.IsReservedBitValid()
  {
    var b := t.Bytes();
    assert IsAsciiAlphabetic(b[0]) && IsAsciiAlphabetic(b[1]);
    assert IsAsciiAlphabetic(b[2]) && IsAsciiAlphabetic(b[3]);
    assert b == [t.firstByte, t.secondByte, t.thirdByte, t.fourthByte];
  }

  /** A letter of the English alphabet, as a character. */
  predicate IsLetter(c: char) {
    'A' <= c <= 'Z' || 'a' <= c <= 'z'
  }

  /**
   * The strings `FromStr` accepts are exactly the four-letter ASCII
   * strings: any other length, a non-letter or a non-ASCII character is
   * rejected.
   */
  lemma {:induction false} FromStrAcceptsFourLetters(s: string)
    ensures (|Utf8.Encode(s)| == 4 && IsAllAlphabetic(Utf8.Encode(s)))
            <==> (|s| == 4 && forall i | 0 <= i < 4 :: IsLetter(s[i]))
  {
    var raw := Utf8.Encode(s);
    if |raw| == 4 && IsAllAlphabetic(raw) {
      assert Utf8.SevenBit(raw) by {
        forall i | 0 <= i < |raw| ensures (raw[i] as int) < 0x80 {
          assert IsAsciiAlphabetic(raw[i]);
        }
      }
      Utf8.EncodeSevenBit(s);
      Utf8.EncodeAscii(s);
      forall i | 0 <= i < 4 ensures IsLetter(s[i]) {
        assert IsAsciiAlphabetic(raw[i]);
        assert raw[i] as int == s[i] as int;
      }
    }
    if |s| == 4 && forall i | 0 <= i < 4 :: IsLetter(s[i]) {
      assert Utf8.IsAscii(s);
      Utf8.EncodeAscii(s);
      forall i | 0 <= i < 4 ensures IsAsciiAlphabetic(raw[i]) {
        assert IsLetter(s[i]);
        assert raw[i] as int == s[i] as int;
      }
    }
  }

  /**
   * What `Display` writes is a four-character string whose UTF-8 bytes are
   * the chunk type's bytes, so `FromStr` gives the same chunk type back.
   */
  lemma DisplayParsesBack(t: ChunkType, s: string)
    requires |s| == 4
    requires forall i | 0 <= i < 4 :: s[i] as int == t.Bytes()[i] as int
    ensures Utf8.Encode(s) == t.Bytes()
    ensures TryFromBytes(Utf8.Encode(s)) == Ok(t)
  {
    assert Utf8.IsAscii(s) by {
      forall i | 0 <= i < 4 ensures (s[i] as int) < 0x80 {
        assert IsAsciiAlphabetic(t.Bytes()[i]);
      }
    }
    Utf8.EncodeAscii(s);
    var raw := Utf8.Encode(s);
    forall i | 0 <= i < 4 ensures raw[i] == t.Bytes()[i] {
      assert raw[i] as int == t.Bytes()[i] as int;
    }
  }

  /** `from_str(t.to_string()) == t`: displaying then parsing is the identity. */
  method ParseDisplayed(t: ChunkType) returns (r: Result<ChunkType, ChunkTypeError>)
    ensures r == Ok(t)
  {
    var s := t.Display();
    DisplayParsesBack(t, s);
    r := FromStr(s);
  }

  /**
   * The source's examples for "RuSt": built from its bytes or its text, it
   * is critical, private, reserved-bit-valid, safe to copy and valid, and it
   * displays as "RuSt".
   */
  method ExampleRuSt() returns (fromBytes: ChunkType, fromText: ChunkType, text: string)
    ensures fromBytes == fromText && fromText.Bytes() == [82, 117, 83, 116]
    ensures fromText.IsCritical() && !fromText.IsPublic()
    ensures fromText.IsReservedBitValid() && fromText.IsSafeToCopy() && fromText.IsValid()
    ensures text == "RuSt"
  {
    var byBytes := TryFromBytes([82, 117, 83, 116]);
    fromBytes := byBytes.value;
    Utf8.EncodeAscii("RuSt");
    var byText := FromStr("RuSt");
    fromText := byText.value;
    text := fromText.Display();
    assert text == "RuSt";
  }

  /**
   * The source's examples that vary the case: "ruSt" is not critical,
   * "RUSt" is public and "RuST" is not safe to copy.
   */
  method ExampleCaseVariants() returns (ruSt: ChunkType, rUSt: ChunkType, ruST: ChunkType)
    ensures !ruSt.IsCritical() && rUSt.IsPublic() && !ruST.IsSafeToCopy()
  {
    Utf8.EncodeAscii("ruSt");
    var r := FromStr("ruSt");
    ruSt := r.value;
    Utf8.EncodeAscii("RUSt");
    r := FromStr("RUSt");
    rUSt := r.value;
    Utf8.EncodeAscii("RuST");
    r := FromStr("RuST");
    ruST := r.value;
  }

  /**
   * The source's examples of invalid codes: "Rust" is built but is neither
   * reserved-bit-valid nor valid, and "Ru1t" is rejected.
   */
  method ExampleInvalid() returns (rust: ChunkType, ru1t: Result<ChunkType, ChunkTypeError>)
    ensures !rust.IsReservedBitValid() && !rust.IsValid()
    ensures ru1t == Err(NotAlphabetic)
  {
    Utf8.EncodeAscii("Rust");
    var r := FromStr("Rust");
    rust := r.value;
    Utf8.EncodeAscii("Ru1t");
    ru1t := FromStr("Ru1t");
  }
}
