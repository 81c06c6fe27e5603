/**
 * One PNG chunk (src/chunk.rs), framed as section 5.3 of the PNG
 * Specification, Second Edition, lays out: a 4-byte big-endian length, the
 * 4-byte chunk type, the data, and a 4-byte big-endian CRC-32 computed over
 * the type and the data (section 5.5).
 */
module Chunks {
  import opened Wrappers
  import ChunkTypes
  import BigEndian
  import Crc

  /** Why a byte frame could not be parsed as a chunk. */
  datatype ChunkError =
    | TooShort                                   // "Chunk data is too short"
    | BadType(cause: ChunkTypes.ChunkTypeError)  // passed on from the chunk type
    | CrcMismatch                                // "CRC does not match"

  /** 2^32: Rust's `as u32` keeps a length modulo this. */
  const U32_MODULUS: int := 0x1_0000_0000

  /** A length as a Rust `u32` holds it. */
  newtype u32 = x: int | 0 <= x < U32_MODULUS

  /** Bytes of a frame besides the data: length, type and CRC. */
  const FRAME_OVERHEAD: int := 12

  /**
   * A chunk. It has no mutating methods: the fields are read through the
   * source's accessors `length`, `chunk_type`, `data` and `crc`. Both
   * integers are `u32` in the source; the length, a count, is kept as an
   * integer, and the CRC, a bit pattern, as a `bv32`.
   */
  datatype Chunk = Chunk(length: u32, chunkType: ChunkTypes.ChunkType, data: seq<bv8>, crc: bv32)
  {
    /**
     * The invariant of every chunk the source can hold (both `new` and
     * `try_from` build through `new`): the length is the data size as a
     * u32, and the CRC is the CRC-32 of the type and the data.
     */
    predicate Valid() {
      && length as int == |data| % U32_MODULUS
      && crc == Crc.Crc32(CrcInput(chunkType, data))
    }

    /** `as_bytes`: length, type, data and CRC, the integers big-endian. */
    function AsBytes(): (r: seq<bv8>)
      ensures |r| == |data| + FRAME_OVERHEAD
      ensures r[..4] == BigEndian.ToBytes(length as int as bv32)
      ensures r[4..8] == chunkType.Bytes()
      ensures r[8..|r| - 4] == data
      ensures r[|r| - 4..] == BigEndian.ToBytes(crc)
    {
      var r := BigEndian.ToBytes(length as int as bv32) + chunkType.Bytes() + data + BigEndian.ToBytes(crc);
      assert r[..4] == BigEndian.ToBytes(length as int as bv32);
      assert r[4..8] == chunkType.Bytes();
      assert r[8..|r| - 4] == data;
      r
    }
  }

  /** The bytes the CRC covers: the type followed by the data. */
  function CrcInput(chunkType: ChunkTypes.ChunkType, data: seq<bv8>): (r: seq<bv8>)
    ensures |r| == |data| + 4
    ensures r[..4] == chunkType.Bytes() && r[4..] == data
  {
    chunkType.Bytes() + data
  }

  /**
   * `Chunk::new`: keeps the type and data, takes the length as the data's
   * byte count cast to u32 (so modulo 2^32), and computes the CRC over the
   * type and the data.
   */
  function New(chunkType: ChunkTypes.ChunkType, data: seq<bv8>): (c: Chunk)
    ensures c.chunkType == chunkType && c.data == data
    ensures c.length as int == |data| % U32_MODULUS
    ensures |data| < U32_MODULUS ==> c.length as int == |data|
    ensures c.crc == Crc.Crc32(CrcInput(chunkType, data))
    ensures c.Valid()
  {
    Chunk((|data| % U32_MODULUS) as u32, chunkType, data, Crc.Crc32(CrcInput(chunkType, data)))
  }

  /**
   * `TryFrom<&[u8]>`: a frame of at least 12 bytes whose bytes 4..8 are
   * letters and whose last four bytes hold the CRC of everything between.
   * The data is taken from the frame's size; the declared length in bytes
   * 0..4 is never read.
   */
  function TryFromBytes(bytes: seq<bv8>): (r: Result<Chunk, ChunkError>)
    ensures |bytes| < FRAME_OVERHEAD ==> r == Err(TooShort)
    ensures (|bytes| >= FRAME_OVERHEAD && !ChunkTypes.IsAllAlphabetic(bytes[4..8]))
              ==> r == Err(BadType(ChunkTypes.NotAlphabetic))
    ensures r.Ok? ==> r.value == New(r.value.chunkType, bytes[8..|bytes| - 4])
    ensures r.Ok? ==> r.value.chunkType.Bytes() == bytes[4..8]
    ensures r.Ok? ==> r.value.crc == BigEndian.FromBytes(bytes[|bytes| - 4..])
    ensures r.Ok? ==> r.value.Valid()
  {
    if |bytes| < FRAME_OVERHEAD then Err(TooShort)
    else
      match ChunkTypes.TryFromBytes(bytes[4..8])
      case Err(e) => Err(BadType(e))
      case Ok(chunkType) =>
        var data := bytes[8..|bytes| - 4];
        var crc := BigEndian.FromBytes(bytes[|bytes| - 4..]);
        var chunk := New(chunkType, data);
        if chunk.crc != crc then Err(CrcMismatch) else Ok(chunk)
  }

  /**
   * A frame is accepted exactly when it has at least 12 bytes, bytes 4..8
   * are letters, and its last four bytes, read big-endian, are the CRC-32 of
   * bytes 4..len-4. The checks run in that order, so a frame with bad type
   * bytes reports that rather than a CRC mismatch.
   */
  lemma {:induction false} AcceptsIff(bytes: seq<bv8>)
    ensures TryFromBytes(bytes).Ok? <==>
              && |bytes| >= FRAME_OVERHEAD
              && ChunkTypes.IsAllAlphabetic(bytes[4..8])
              && BigEndian.FromBytes(bytes[|bytes| - 4..]) == Crc.Crc32(bytes[4..|bytes| - 4])
    ensures TryFromBytes(bytes) == Err(CrcMismatch) <==>
              && |bytes| >= FRAME_OVERHEAD
              && ChunkTypes.IsAllAlphabetic(bytes[4..8])
              && BigEndian.FromBytes(bytes[|bytes| - 4..]) != Crc.Crc32(bytes[4..|bytes| - 4])
  {
    if |bytes| >= FRAME_OVERHEAD && ChunkTypes.IsAllAlphabetic(bytes[4..8]) {
      var t := ChunkTypes.TryFromBytes(bytes[4..8]).value;
      assert CrcInput(t, bytes[8..|bytes| - 4]) == bytes[4..|bytes| - 4];
    }
  }

  /**
   * The chunk parsed from a frame of n bytes has length n - 12 (modulo
   * 2^32), whatever the frame's first four bytes declare.
   */
  lemma ParsedLength(bytes: seq<bv8>)
    requires TryFromBytes(bytes).Ok?
    ensures TryFromBytes(bytes).value.length as int == (|bytes| - FRAME_OVERHEAD) % U32_MODULUS
    ensures |TryFromBytes(bytes).value.data| == |bytes| - FRAME_OVERHEAD
  {
  }

  /** Two frames that differ only in the declared length parse alike. */
  lemma {:induction false} DeclaredLengthIgnored(a: seq<bv8>, b: seq<bv8>)
    requires |a| == |b| && |a| >= 4 && a[4..] == b[4..]
    ensures TryFromBytes(a) == TryFromBytes(b)
  {
    forall k | 4 <= k < |a| ensures a[k] == b[k] {
      assert a[k] == a[4..][k - 4];
    }
    if |a| >= FRAME_OVERHEAD {
      assert a[4..8] == b[4..8];
      assert a[8..|a| - 4] == b[8..|b| - 4];
      assert a[|a| - 4..] == b[|b| - 4..];
    }
  }

  /** The valid chunks are exactly the ones `New` builds. */
  lemma ValidIffNew(c: Chunk)
    ensures c.Valid() <==> c == New(c.chunkType, c.data)
  {
  }

  /**
   * Round trip: serialising any valid chunk, such as one built by `New`,
   * and parsing the frame gives back the same chunk (length, type, data
   * and CRC).
   */
  lemma {:induction false} RoundTrip(c: Chunk)
    requires c.Valid()
    ensures TryFromBytes(c.AsBytes()) == Ok(c)
  {
    ValidIffNew(c);
  }

  /**
   * The other direction: serialising a parsed chunk reproduces the frame
   * from byte 4 on, and the whole frame when its declared length is the
   * true one.
   */
  lemma {:induction false} ParseThenSerialise(bytes: seq<bv8>)
    requires TryFromBytes(bytes).Ok?
    ensures TryFromBytes(bytes).value.AsBytes()[4..] == bytes[4..]
    ensures (BigEndian.FromBytes(bytes[..4]) as int == |bytes| - FRAME_OVERHEAD)
              ==> TryFromBytes(bytes).value.AsBytes() == bytes
  {
    var c := TryFromBytes(bytes).value;
    var r := c.AsBytes();
    BigEndian.FromToBytes(c.crc);
    SamePartsSameFrame(r, bytes);
    if BigEndian.FromBytes(bytes[..4]) as int == |bytes| - FRAME_OVERHEAD {
      var declared := BigEndian.FromBytes(bytes[..4]);
      assert c.length as int == declared as int;
      assert (declared as int) as bv32 == declared;
      assert r[..4] == bytes[..4];
      assert r == r[..4] + r[4..];
      assert bytes == bytes[..4] + bytes[4..];
    }
  }

  /** Two frames of one size with the same type, data and CRC fields agree from byte 4 on. */
  lemma SamePartsSameFrame(x: seq<bv8>, y: seq<bv8>)
    requires |x| == |y| >= FRAME_OVERHEAD
    requires x[4..8] == y[4..8] && x[8..|x| - 4] == y[8..|y| - 4] && x[|x| - 4..] == y[|y| - 4..]
    ensures x[4..] == y[4..]
  {
    forall k | 4 <= k < |x| ensures x[k] == y[k] {
      if k < 8 {
        assert x[k] == x[4..8][k - 4];
      } else if k < |x| - 4 {
        assert x[k] == x[8..|x| - 4][k - 8];
      } else {
        assert x[k] == x[|x| - 4..][k - (|x| - 4)];
      }
    }
  }

  /**
   * A frame whose CRC field holds any value other than the computed CRC
   * (the source's example: the right CRC minus one) is rejected.
   */
  lemma {:induction false} WrongCrcRejected(chunkType: ChunkTypes.ChunkType, data: seq<bv8>, crc: bv32)
    requires crc != New(chunkType, data).crc
    ensures TryFromBytes(New(chunkType, data).(crc := crc).AsBytes()) == Err(CrcMismatch)
  {
  }

  /** "RuSt", as the source's examples spell it. */
  const RUST_TYPE: seq<bv8> := [82, 117, 83, 116]

  /** "This is where your secret message will be!", as bytes. */
  const SECRET_MESSAGE: seq<bv8> :=
    [84, 104, 105, 115, 32, 105, 115, 32, 119, 104, 101, 114, 101, 32,
     121, 111, 117, 114, 32, 115, 101, 99, 114, 101, 116, 32, 109, 101,
     115, 115, 97, 103, 101, 32, 119, 105, 108, 108, 32, 98, 101, 33]

  /**
   * The source's example: a "RuSt" chunk built with `New` around the
   * 42-byte secret message has length 42.
   */
  method ExampleNewChunk() returns (c: Chunk)
    ensures c.length == 42 && c.chunkType.Bytes() == RUST_TYPE && c.data == SECRET_MESSAGE
  {
    var t := ChunkTypes.TryFromBytes(RUST_TYPE);
    c := New(t.value, SECRET_MESSAGE);
  }

  /**
   * The source's example frame: declared length 42, type "RuSt", the secret
   * message and a CRC. It parses exactly when the CRC field holds the CRC-32
   * of "RuSt" and the message, and then the chunk has length 42 and carries
   * the message.
   */
  method ExampleParsedChunk(crc: bv32) returns (r: Result<Chunk, ChunkError>)
    ensures r.Ok? <==> crc == Crc.Crc32(RUST_TYPE + SECRET_MESSAGE)
    ensures r.Ok? ==> r.value.length == 42 && r.value.data == SECRET_MESSAGE
    ensures r.Ok? ==> r.value.chunkType.Bytes() == RUST_TYPE && r.value.crc == crc
  {
    var frame := BigEndian.ToBytes(42) + RUST_TYPE + SECRET_MESSAGE + BigEndian.ToBytes(crc);
    r := TryFromBytes(frame);
    BigEndian.FromToBytes(crc);
    assert frame[4..8] == RUST_TYPE;
    assert frame[8..|frame| - 4] == SECRET_MESSAGE;
    assert frame[|frame| - 4..] == BigEndian.ToBytes(crc);
    assert frame[4..|frame| - 4] == RUST_TYPE + SECRET_MESSAGE;
    AcceptsIff(frame);
  }
}
