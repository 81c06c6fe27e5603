# PNG chunk and chunk type codec, modelled in Dafny

This project models the core of `png-encryption`, a small Rust tool that hides
text messages in PNG files as extra chunks. The core is two immutable value
types:

- **ChunkType** (`src/chunk_type.rs`). This is the 4-byte chunk type code.
  It is built from four bytes or from a string, and every byte must be an
  ASCII letter. Bit 5 (0x20) of each byte gives one flag: critical, public,
  reserved-bit-valid or safe-to-copy. This follows section 5.4 of the PNG
  Specification, Second Edition. `Display` writes the four bytes back as
  characters.
- **Chunk** (`src/chunk.rs`). This is one framed chunk, laid out as in
  section 5.3 of the same standard. `new` computes the length and a CRC-32
  over the type and the data (section 5.5). `as_bytes` writes the big-endian
  length, the type, the data and the big-endian CRC. `try_from` parses a
  frame back.

Files:

- `wrappers.dfy` (`Wrappers`): the `Result` datatype that stands for Rust's
  `Result`.
- `utf8.dfy` (`Utf8`): the UTF-8 bytes of a string. A Rust `&str` is UTF-8,
  so `s.len()` and `s.bytes()` work on these bytes.
- `big_endian.dfy` (`BigEndian`): `u32::to_be_bytes` and `u32::from_be_bytes`.
- `crc32.dfy` (`Crc`): CRC-32 with the reflected polynomial 0xEDB88320. The
  register starts at all ones and the result is complemented. This is the
  `CRC_32_ISO_HDLC` algorithm from the `crc` crate. No proof depends on its
  definition, so every chunk property holds for any checksum function.
- `chunk_type.dfy` (`ChunkTypes`): the chunk type.
- `chunk.dfy` (`Chunks`): the chunk.

Modelling choices:

- Bytes are `bv8`, so the flags are the exact bit tests of the source. The
  CRC, a bit pattern, is a `bv32`. The chunk length, a count, is an integer
  newtype `u32` limited to 0..2^32-1, and it is converted to `bv32` only to
  be written big-endian.
- `ChunkType` is a subset type of the 4-byte datatype `TypeCode`, limited to
  all-letter values. The Rust struct has private fields, and its only
  constructors check the letters, so every value the program can hold is
  letter-only.
- `from_str` is a method. It copies the string's bytes into a zeroed 4-byte
  array in a loop, as the source does. `Display` is a method that appends one
  character per byte in a loop.
- `Chunk` is a datatype. `Valid` is the invariant every chunk the source
  can build keeps: the length is the data size modulo 2^32 and the CRC is
  CRC-32 of type and data. Its fields stand for the accessors `length`,
  `chunk_type`, `data` and `crc` (src/chunk.rs:47-61). These return the
  stored fields, and nothing mutates a chunk.
- `data.len() as u32` in `new` truncates in Rust. The model writes this out
  as `|data| % 2^32`, so `New` has no precondition. The length equals the
  data size whenever the data is shorter than 2^32 bytes.
- The source reports errors as static strings. The model uses closed error
  datatypes, with each message noted beside its variant.
- `try_from` never reads the declared length in bytes 0..4, not even to
  store it. The parsed length is always recomputed from the size of the
  frame, so a frame with a wrong declared length still parses.

## Model

| member | source | states |
|---|---|---|
| `Utf8.Encode` | src/chunk_type.rs:88-92 | the UTF-8 bytes of a string are at least one per character, and exactly one per character iff the string is ASCII (this is what `s.len()` counts and `s.bytes()` yields) |
| `Utf8.EncodeAscii` | src/chunk_type.rs:88-94 | an ASCII string has one byte per character, and each byte equals its character's code |
| `Utf8.EncodeSevenBit` | src/chunk_type.rs:88-92 | all UTF-8 bytes of a string are below 0x80 iff the string is ASCII |
| `BigEndian.ToBytes` | src/chunk.rs:70-73 | `u32::to_be_bytes` gives four bytes, most significant first: the value is `b0*2^24 + b1*2^16 + b2*2^8 + b3` |
| `BigEndian.ToBytesExamples` | src/chunk.rs:70-73 | 42 is written as 0,0,0,42 and 2882656334 as 0xAB,0xD1,0xD8,0x4E |
| `BigEndian.FromBytes` | src/chunk.rs:87-88 | `u32::from_be_bytes` is undone by `to_be_bytes`: encoding the value gives back the four bytes |
| `BigEndian.FromToBytes` | src/chunk.rs:70-73 | decoding the big-endian bytes of a u32 gives the u32 back |
| `BigEndian.ToBytesInjective` | src/chunk.rs:70-73 | two u32 values have equal big-endian bytes iff they are equal |
| `ChunkTypes.IsAllAlphabetic` | src/chunk_type.rs:112-115 | true iff each of the four bytes is in 65-90 or 97-122 (`is_ascii_alphabetic`) |
| `ChunkTypes.TypeCode.Bytes` | src/chunk_type.rs:25-32 | `bytes()` is four bytes long (its content is fixed by `TryFromBytes` and `BytesRoundTrip`) |
| `ChunkTypes.TypeCode.IsCritical` | src/chunk_type.rs:37-39 | on a letter first byte, critical (bit 0x20 clear) iff that letter is upper case |
| `ChunkTypes.TypeCode.IsPublic` | src/chunk_type.rs:44-46 | on a letter second byte, public (bit 0x20 clear) iff that letter is upper case |
| `ChunkTypes.TypeCode.IsReservedBitValid` | src/chunk_type.rs:50-52 | on a letter third byte, reserved-bit-valid (bit 0x20 clear) iff that letter is upper case |
| `ChunkTypes.TypeCode.IsSafeToCopy` | src/chunk_type.rs:57-59 | on a letter fourth byte, safe-to-copy (bit 0x20 set) iff that letter is lower case |
| `ChunkTypes.TypeCode.IsValid` | src/chunk_type.rs:60-62 | on a letter third byte, valid iff that letter is upper case, the reserved-bit test |
| `ChunkTypes.TypeCode.Display` | src/chunk_type.rs:99-107 | writes exactly four characters, and each one's code is the corresponding byte |
| `ChunkTypes.TryFromBytes` | src/chunk_type.rs:69-80 | succeeds iff each of the four bytes is in 65-90 or 97-122; on success `bytes()` returns the input; otherwise the error is "not alphabetic" |
| `ChunkTypes.FromStr` | src/chunk_type.rs:87-96 | fails with the length error whenever the string is not exactly 4 UTF-8 bytes long; otherwise gives the same result as `TryFromBytes` on those bytes |
| `ChunkTypes.BytesRoundTrip` | src/chunk_type.rs:122-127 | building from a chunk type's own `bytes()` gives that chunk type back |
| `ChunkTypes.EqualIffSameBytes` | src/chunk_type.rs:12 | the derived equality holds iff the four bytes are equal |
| `ChunkTypes.FlagsAreCaseTests` | src/chunk_type.rs:37-62 | for a chunk type: critical, public and reserved-bit-valid mean upper case in bytes 0, 1 and 2; safe-to-copy means lower case in byte 3; valid is reserved-bit-valid |
| `ChunkTypes.FromStrAcceptsFourLetters` | src/chunk_type.rs:87-96 | the strings `from_str` accepts are exactly the 4-character strings of ASCII letters; other lengths, non-letters and non-ASCII characters are rejected |
| `ChunkTypes.DisplayParsesBack` | src/chunk_type.rs:99-107 | the text `Display` writes has the chunk type's bytes as its UTF-8 bytes, and `TryFromBytes` of those bytes gives the chunk type back |
| `ChunkTypes.ParseDisplayed` | src/chunk_type.rs:200-205 | `from_str(t.to_string()) == t` for every chunk type |
| `ChunkTypes.ExampleRuSt` | src/chunk_type.rs:122-205 | "RuSt" built from bytes equals "RuSt" built from text; it is critical, not public, reserved-bit-valid, safe to copy and valid; it displays as "RuSt" |
| `ChunkTypes.ExampleCaseVariants` | src/chunk_type.rs:143-183 | "ruSt" is not critical, "RUSt" is public and "RuST" is not safe to copy |
| `ChunkTypes.ExampleInvalid` | src/chunk_type.rs:167-198 | "Rust" is built but is not reserved-bit-valid and not valid, and "Ru1t" is rejected as not alphabetic |
| `Chunks.Chunk.AsBytes` | src/chunk.rs:68-75 | the frame is `|data| + 12` bytes: the big-endian length in bytes 0..4, the type in 4..8, the data in 8..len-4, and the big-endian CRC in the last four |
| `Chunks.CrcInput` | src/chunk.rs:32-37 | the CRC input is the 4 type bytes followed by the data |
| `Chunks.New` | src/chunk.rs:30-45 | keeps the type and data; the length is the data size modulo 2^32, which equals the size for data under 2^32 bytes; the CRC is CRC-32 of type and data; the chunk is valid |
| `Chunks.TryFromBytes` | src/chunk.rs:80-95 | fails as too short below 12 bytes and as a bad type when bytes 4..8 are not letters; on success the chunk is `new` of bytes 4..8 and bytes 8..len-4, and its CRC is the big-endian value of the last four bytes; the parsed chunk is valid |
| `Chunks.AcceptsIff` | src/chunk.rs:81-93 | a frame is accepted iff it has at least 12 bytes, its type bytes are letters and its last four bytes read big-endian equal CRC-32 of bytes 4..len-4; it fails with a CRC mismatch iff the first two hold and the CRC differs |
| `Chunks.ParsedLength` | src/chunk.rs:86-89 | a parsed chunk has `len - 12` data bytes and length `len - 12` (modulo 2^32) |
| `Chunks.DeclaredLengthIgnored` | src/chunk.rs:84-89 | two frames that differ only in the declared length field parse to the same result |
| `Chunks.ValidIffNew` | src/chunk.rs:30-45 | a chunk is valid (length = data size mod 2^32, CRC = CRC-32 of type and data) iff it is what `new` builds from its type and data |
| `Chunks.RoundTrip` | src/chunk.rs:68-95 | parsing the `as_bytes` frame of any valid chunk (every chunk `new` or `try_from` builds) succeeds with the same length, type, data and CRC |
| `Chunks.ParseThenSerialise` | src/chunk.rs:68-95 | serialising a parsed chunk reproduces the frame from byte 4 on, and the whole frame when the declared length is the true one |
| `Chunks.WrongCrcRejected` | src/chunk.rs:87-93 | a frame of a chunk whose CRC field holds any other value (such as the right CRC minus one) fails with a CRC mismatch |
| `Chunks.ExampleNewChunk` | src/chunk.rs:136-145 | `new` on "RuSt" and the 42-byte secret message gives length 42 |
| `Chunks.ExampleParsedChunk` | src/chunk.rs:118-151 | the 42-byte "RuSt" frame parses iff its CRC field is CRC-32 of "RuSt" and the message; then the chunk has length 42, type "RuSt", the message as data and the frame's CRC |

## Left out

- `src/commands.rs`: file existence checks, `fs::read`, `fs::write` and `println!` output. These are I/O around the core.
- `src/main.rs` and `src/args.rs`: a GUI window, commented-out command dispatch, and argument structs with no logic.
- The `Png` container (parse, append, remove, serialise). Its source file `src/png.rs` is not part of this model, so none of its behaviour is modelled.
- `Chunk::data_as_string` and `Display for Chunk`: these depend on Rust's UTF-8 validation and string formatting.
- The debug `println!` calls in `is_all_alphabetic`, `try_from` and one test. They only print.
- The concrete CRC value 2882656334 of the example chunk. `ExampleParsedChunk` states that the frame parses exactly when its CRC field is CRC-32 of "RuSt" and the message, but the model does not evaluate that CRC to 2882656334.
- That a single flipped bit in the type or data bytes changes the CRC. This is a property of the CRC-32 polynomial and is not proved. A changed CRC field is rejected; see `WrongCrcRejected`.
- The 2^31 - 1 length limit named in the comment at src/chunk.rs:15-16. The code does not enforce it, so the model does not either.
