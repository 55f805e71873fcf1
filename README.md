# PSD File Header Section codec, modelled in Dafny

This project models the codec for the 26-byte File Header Section of the Adobe
Photoshop document format (PSD, and its large-document variant PSB). The codec
has four parts:

- **`DataView`** (`cursor.dfy`, module `Cursor`): a byte cursor over a fixed
  buffer. It has a mutable `currentOffset`, `seek`/`tell`/`skip`, big-endian
  signed and unsigned 8/16/32-bit reads and writes, and fixed-length string
  reads and writes. Every access takes an optional explicit offset, written as
  `Option<int>` with `None` meaning "the current offset". After the access the
  cursor sits at `offset + width`.
- **`FileHeaderSection`** (`header.dfy`, module `Header`): the header record as a
  class.
  - `signature`, `version`, `depth` and `colorMode` are public fields that
    anyone may assign.
  - `numChannels`, `height` and `width` change only through validating setters.
    Each setter returns `Pass` or `Fail(error)` where the TypeScript setter throws, and it
    leaves the field unchanged on failure.
  - `Create(width, height)` models the constructor with arguments. It switches
    to PSB when either dimension exceeds 30000.
- **`FileHeaderSectionParser.parse`** (`parser.dfy`, module `HeaderParser`):
  - `Decode` states the decoded result by absolute byte offsets.
  - `Parse` reads the same fields through a `DataView` in the order `parse` reads
    them, pushing the validated ones through the setters. It is proved to agree with
    `Decode`.
- **`FileHeaderSectionBufferBuilder.buildBuffer`** (`builder.dfy`, module
  `HeaderBuilder`):
  - `Encode` states the 26 bytes.
  - `BuildBuffer` zero-allocates 26 bytes and fills them through a `DataView`.
    It is proved to produce exactly `Encode` of the record.

`bytes.dfy` (module `Bytes`) holds the byte encodings behind Node's `Buffer`
accessors: big-endian integers, two's complement, range overwrite and ASCII
text. `codec.dfy` (module `HeaderCodec`) holds the round trips between encoder
and decoder and the fixture headers the tests compare against. `wrappers.dfy`
holds `Option`, `Result` and `Outcome`.

Behaviour followed from the code:
- `parse` ignores its `offset` argument. The signature is read at the cursor's
  initial position 0 and the channel count at absolute byte 12.
- `version` is assigned raw, before the dimensions. So the dimension ceiling
  comes from the decoded version: 300000 when it is 2, 30000 otherwise.
- Depth and colour mode are never range-checked.
- A read past the end of the buffer makes Node throw a range error. `Parse`
  returns `BufferUnderrun` at the point where that read happens, so
  `Decode` reports errors in the order `parse` throws them. For example, a 15-byte
  buffer with a zero channel count fails on the channel count, not on length.
- `readString` clips its range to the buffer, as Node's `toString` does. A
  buffer shorter than 4 bytes therefore fails the signature check.
- The parser's doc comment (`FileHeaderSectionParser.ts:9`) documents
  `offset` as the header's offset, but `parse` never reads it. The model
  follows the code, and the discrepancy is logged under Findings.
- `buildBuffer` calls `dataView.skip(6)`, which the `DataView` class in
  `src/util/DataView.ts` does not define. `DataView.Skip` models it as
  `seek(tell() + n)`.

Two invariants of the record are kept apart:
- `Valid()`: 1..56 channels and dimensions in 1..300000. Every operation
  preserves it, including raw assignment of `version`.
- `WithinCeiling`: the dimensions are within the ceiling of the *current*
  version. It holds after construction and after every setter call, but a raw
  `version` assignment can break it. The round-trip lemmas require it.

`HeaderBuilder.ValidRecordEncodable` shows what `Valid()` buys the encoder.
With `Valid()`, only the public signature, version, depth and colour mode can
make a record unencodable.

## Model

| member | source | states |
|---|---|---|
| `Bytes.BigEndian` | reference_implementation/src/util/DataView.ts:44-66 | the big-endian value of n bytes is below 256^n |
| `Bytes.ToBigEndian` | reference_implementation/src/util/DataView.ts:84-95 | a big-endian write of a value below 256^width produces exactly `width` bytes |
| `Bytes.BigEndianOfToBigEndian` | reference_implementation/src/util/DataView.ts:84-95 | reading back the bytes a big-endian write produced gives the value written (induction on width) |
| `Bytes.ToBigEndianOfBigEndian` | reference_implementation/src/util/DataView.ts:44-60 | writing back a value read from n bytes reproduces those bytes (induction on length) |
| `Bytes.BigEndianTwo` | reference_implementation/src/util/DataView.ts:44-48 | a 16-bit read is `buf[o]*256 + buf[o+1]` |
| `Bytes.BigEndianFour` | reference_implementation/src/util/DataView.ts:56-60 | a 32-bit read is the four bytes weighted 2^24, 2^16, 2^8, 1 |
| `Bytes.ToSigned` | reference_implementation/src/util/DataView.ts:38-42 | the two's complement value lies in the signed range of the width, and it is negative exactly when the unsigned value has its top bit set |
| `Bytes.FromSigned` | reference_implementation/src/util/DataView.ts:98-116 | a signed write stores a quantity that reads back as the same signed value |
| `Bytes.FromSignedOfToSigned` | reference_implementation/src/util/DataView.ts:50-54 | storing back a signed reading gives the original unsigned quantity |
| `Bytes.Splice` | reference_implementation/src/util/DataView.ts:77-124 | a write keeps the buffer length and puts exactly its bytes at `o..o+|x|` |
| `Bytes.SpliceKeepsOthers` | reference_implementation/src/util/DataView.ts:84-88 | a write changes no byte outside its range |
| `Bytes.AsciiBytes` | reference_implementation/src/util/DataView.ts:119-124 | ASCII text has one byte per character, and decoding those bytes gives the text back |
| `Bytes.Chars` | reference_implementation/src/util/DataView.ts:71 | decoding yields one character per byte, each with the byte's code |
| `Bytes.Zeros` | reference_implementation/src/buffer-builder/section/FileHeaderSectionBufferBuilder.ts:36 | the zero-filled allocation has exactly n bytes, all 0 |
| `Bytes.CharsInjective` | reference_implementation/src/util/DataView.ts:69-74 | equal decoded texts come from equal bytes, so a string comparison is a byte comparison |
| `Cursor.DataView.constructor` | reference_implementation/src/util/DataView.ts:19-21 | wraps the given buffer with the cursor at 0 |
| `Cursor.DataView.Seek` | reference_implementation/src/util/DataView.ts:23-26 | the cursor becomes `offset`; the buffer is untouched |
| `Cursor.DataView.Tell` | reference_implementation/src/util/DataView.ts:28-30 | returns the cursor position |
| `Cursor.DataView.Skip` | reference_implementation/src/buffer-builder/section/FileHeaderSectionBufferBuilder.ts:46 | moves the cursor n bytes on without touching the buffer |
| `Cursor.DataView.ReadUInt8` | reference_implementation/src/util/DataView.ts:32-36 | returns the byte at the start offset (explicit, else current) and leaves the cursor one past it |
| `Cursor.DataView.ReadInt8` | reference_implementation/src/util/DataView.ts:38-42 | returns that byte as a signed value in -128..127 and advances by 1 |
| `Cursor.DataView.ReadUInt16` | reference_implementation/src/util/DataView.ts:44-48 | returns `buf[o]*256 + buf[o+1]` and leaves the cursor at `o+2`; buffer unchanged |
| `Cursor.DataView.ReadInt16` | reference_implementation/src/util/DataView.ts:50-54 | returns the two's complement value of bytes `o..o+2` and leaves the cursor at `o+2` |
| `Cursor.DataView.ReadUInt32` | reference_implementation/src/util/DataView.ts:56-60 | returns the big-endian value of bytes `o..o+4` and leaves the cursor at `o+4` |
| `Cursor.DataView.ReadInt32` | reference_implementation/src/util/DataView.ts:62-66 | returns the two's complement value of bytes `o..o+4` and leaves the cursor at `o+4` |
| `Cursor.DataView.ReadString` | reference_implementation/src/util/DataView.ts:69-74 | returns the text of bytes `o..o+len` clipped to the buffer, and moves the cursor to `o+len` |
| `Cursor.DataView.WriteUInt8` | reference_implementation/src/util/DataView.ts:77-81 | only byte `o` changes, to the value; the cursor moves to `o+1` |
| `Cursor.DataView.WriteUInt16` | reference_implementation/src/util/DataView.ts:84-88 | only bytes `o..o+2` change, to the value big-endian; the cursor moves to `o+2` |
| `Cursor.DataView.WriteUInt32` | reference_implementation/src/util/DataView.ts:91-95 | only bytes `o..o+4` change, to the value big-endian; the cursor moves to `o+4` |
| `Cursor.DataView.WriteInt8` | reference_implementation/src/util/DataView.ts:98-102 | only byte `o` changes, to the two's complement of the value; the cursor moves to `o+1` |
| `Cursor.DataView.WriteInt16` | reference_implementation/src/util/DataView.ts:105-109 | only bytes `o..o+2` change, to the two's complement big-endian; the cursor moves to `o+2` |
| `Cursor.DataView.WriteInt32` | reference_implementation/src/util/DataView.ts:112-116 | only bytes `o..o+4` change, to the two's complement big-endian; the cursor moves to `o+4` |
| `Cursor.DataView.WriteString` | reference_implementation/src/util/DataView.ts:119-124 | only bytes `o..o+|s|` change, to the text's ASCII bytes; the cursor moves to `o+|s|` |
| `Cursor.Clipped` | reference_implementation/src/util/DataView.ts:69-74 | an in-bounds range is returned as it is, and a clipped range never exceeds the buffer |
| `Cursor.WriteThenRead` | reference_implementation/src/util/DataView.ts:44-95 | an unsigned write followed by a same-width read at the same offset returns the value written |
| `Cursor.WriteSignedThenRead` | reference_implementation/src/util/DataView.ts:50-116 | a signed write followed by a same-width signed read returns the value written |
| `Cursor.WriteStringThenRead` | reference_implementation/src/util/DataView.ts:69-124 | ASCII text written at `o` reads back as the same text |
| `Header.PixelsGuard` | reference_implementation/src/section/FileHeaderSection.ts:66-69 | the source's guard `1 <= v && (v <= 30000 \|\| (isPSB && v <= 300000))` is the ceiling lookup by version |
| `Header.Construct` | reference_implementation/src/section/FileHeaderSection.ts:34-41 | construction succeeds iff both dimensions are in 1..300000; the version is PSB iff either exceeds 30000; the result keeps the setter invariant and the defaults |
| `Header.ConstructExamples` | reference_implementation/test/section/FileHeaderSection.ts:17-26 | 1x1 defaults, (200000, 30000) as PSB, (0, 0) rejected, (400, 30) as PSD |
| `Header.SetterBoundaries` | reference_implementation/test/section/FileHeaderSection.ts:29-61 | 1 and 56 channels are accepted, 0 and 57 are not; a standard record accepts 1 and 30000 and rejects 0 and 30001; the record built from 30001 by 30001 is PSB and accepts 1, 30001 and 300000 but rejects 0 and 300001 |
| `Header.ColorModeName` | reference_implementation/src/parser/section/FileHeaderSectionParser.ts:39 | a colour mode code has a name exactly when it is one of 0, 1, 2, 3, 4, 7, 8, 9 |
| `Header.ColorModeCode` | reference_implementation/src/parser/section/FileHeaderSectionParser.ts:39 | a name's code maps back to that name |
| `Header.ColorModeNameInverse` | reference_implementation/src/section/FileHeaderSection.ts:103 | the name table is one to one: a code's name maps back to the code |
| `Header.FileHeaderSection.constructor` | reference_implementation/src/section/FileHeaderSection.ts:21-41 | defaults: 1x1, 3 channels, depth 8, RGB, `8BPS`, version 1; both invariants hold |
| `Header.FileHeaderSection.Create` | reference_implementation/src/section/FileHeaderSection.ts:34-41 | fails exactly when `Construct` does, with the same error; on success a fresh, valid record whose fields are `Construct`'s |
| `Header.FileHeaderSection.SetNumChannels` | reference_implementation/src/section/FileHeaderSection.ts:47-59 | passes iff 1 <= n <= 56; on success only `numChannels` changes, on failure nothing; both invariants preserved |
| `Header.FileHeaderSection.SetHeight` | reference_implementation/src/section/FileHeaderSection.ts:65-74 | passes iff 1 <= v <= ceiling of the current version; on success only `height` changes, on failure nothing; both invariants preserved |
| `Header.FileHeaderSection.SetWidth` | reference_implementation/src/section/FileHeaderSection.ts:80-89 | passes iff 1 <= v <= ceiling of the current version; on success only `width` changes, on failure nothing; both invariants preserved |
| `Header.FileHeaderSection.IsPSB` | reference_implementation/src/section/FileHeaderSection.ts:91-93 | true exactly when the record's dimensions may reach the larger ceiling 300000 |
| `Header.FileHeaderSection.ToJSON` | reference_implementation/src/section/FileHeaderSection.ts:95-105 | reports exactly the current fields; the colour mode name maps back to the code, and is absent exactly for codes outside the enum |
| `HeaderParser.SignatureText` | reference_implementation/src/parser/section/FileHeaderSectionParser.ts:45-49 | the 4-character read equals `8BPS` iff the buffer has 4 bytes and they are 38 42 50 53 |
| `HeaderParser.Decode` | reference_implementation/src/parser/section/FileHeaderSectionParser.ts:41-70 | a decoded header always has signature `8BPS`, keeps the setter invariant for its decoded version, and came from at least 26 bytes |
| `HeaderParser.DecodeFields` | reference_implementation/src/parser/section/FileHeaderSectionParser.ts:54-67 | fields decoded after the version keep the setter invariant for that version |
| `HeaderParser.Parse` | reference_implementation/src/parser/section/FileHeaderSectionParser.ts:41-70 | fails exactly when `Decode` does, with the same error; on success a fresh valid record whose fields are `Decode`'s; the buffer is not modified |
| `HeaderParser.ReadFields` | reference_implementation/src/parser/section/FileHeaderSectionParser.ts:54-67 | the reads after the version fail exactly when `DecodeFields` does for the version already assigned, with the same error; on success the record is valid and holds `DecodeFields`' fields; the buffer is unchanged |
| `HeaderParser.DecodeSuccess` | reference_implementation/src/parser/section/FileHeaderSectionParser.ts:30-67 | decoding succeeds iff the buffer has 26 bytes, starts with `8BPS`, has 1..56 channels and both dimensions within the decoded version's ceiling; the fields are the big-endian values at offsets 4, 12, 14, 18, 22, 24 |
| `HeaderParser.DecodeSignatureFirst` | reference_implementation/src/parser/section/FileHeaderSectionParser.ts:45-49 | the result is "not a PSD file" exactly when the first four bytes are missing or not `8BPS`, whatever follows |
| `HeaderParser.DecodeIgnoresReserved` | reference_implementation/src/parser/section/FileHeaderSectionParser.ts:52-55 | buffers differing only in bytes 6..11 decode identically |
| `HeaderParser.DecodeOnlyHeaderBytes` | reference_implementation/src/parser/section/FileHeaderSectionParser.ts:41-67 | the result depends only on bytes 0..25 |
| `HeaderParser.DecodeAcceptsAnyDepthAndColorMode` | reference_implementation/src/parser/section/FileHeaderSectionParser.ts:63-67 | replacing depth and colour mode by any 16-bit values still decodes, and only those fields change |
| `HeaderParser.DecodeAt` | reference_implementation/src/parser/section/FileHeaderSectionParser.ts:9 | decoding at offset 0 is `Decode` |
| `HeaderParser.DecodeAtFindsHeader` | reference_implementation/src/parser/section/FileHeaderSectionParser.ts:9 | a header placed after any prefix is decoded at the prefix's length |
| `HeaderBuilder.Encode` | reference_implementation/src/buffer-builder/section/FileHeaderSectionBufferBuilder.ts:35-68 | the encoding is exactly 26 bytes |
| `HeaderBuilder.EncodeSlices` | reference_implementation/src/buffer-builder/section/FileHeaderSectionBufferBuilder.ts:39-61 | each field's bytes lie at its layout offset, and bytes 6..11 are zero |
| `HeaderBuilder.EncodeLayout` | reference_implementation/src/buffer-builder/section/FileHeaderSectionBufferBuilder.ts:39-61 | bytes 0..3 are the signature; version, channels, height, width, depth and colour mode read back big-endian at 4, 12, 14, 18, 22, 24; bytes 6..11 are zero |
| `HeaderBuilder.FieldAt16` | reference_implementation/src/buffer-builder/section/FileHeaderSectionBufferBuilder.ts:43 | a 16-bit field written at `o` reads back at `o` |
| `HeaderBuilder.FieldAt32` | reference_implementation/src/buffer-builder/section/FileHeaderSectionBufferBuilder.ts:52 | a 32-bit field written at `o` reads back at `o` |
| `HeaderBuilder.SpliceStep` | reference_implementation/src/buffer-builder/section/FileHeaderSectionBufferBuilder.ts:40-61 | each sequential write extends the finished prefix of the header by its field, leaving zeros after it |
| `HeaderBuilder.WritesProduceEncode` | reference_implementation/src/buffer-builder/section/FileHeaderSectionBufferBuilder.ts:36-61 | the seven writes into a zeroed 26-byte buffer, skipping 6..11, produce exactly `Encode` |
| `HeaderBuilder.ValidRecordEncodable` | reference_implementation/src/section/FileHeaderSection.ts:21-27 | a record that keeps the setters' bounds, with signature `8BPS` and 16-bit version, depth and colour mode, is one `buildBuffer` can encode |
| `HeaderBuilder.BuildBuffer` | reference_implementation/src/buffer-builder/section/FileHeaderSectionBufferBuilder.ts:35-64 | returns a fresh buffer equal to `Encode` of the record, and leaves the record unmodified |
| `HeaderCodec.DecodeEncode` | reference_implementation/src/buffer-builder/section/FileHeaderSectionBufferBuilder.ts:35-64 | for any record with signature `8BPS` that keeps the setter invariant, with 16-bit version, depth and colour mode: decoding its encoding gives it back |
| `HeaderCodec.EncodeDecode` | reference_implementation/src/parser/section/FileHeaderSectionParser.ts:41-70 | re-encoding a decoded header reproduces its 26 bytes, with the reserved zone zeroed |
| `HeaderCodec.EncodeHeaderBytes` | reference_implementation/src/buffer-builder/section/FileHeaderSectionBufferBuilder.ts:39-61 | the fields read at the layout offsets of any 26 bytes re-encode to those bytes, with a zero reserved zone |
| `HeaderCodec.Reassemble` | reference_implementation/src/buffer-builder/section/FileHeaderSectionBufferBuilder.ts:39-61 | the field slices laid end to end, with zeros in the reserved zone, form the header bytes with that zone zeroed |
| `HeaderCodec.ReadBytesBack16` | reference_implementation/src/util/DataView.ts:44-48 | the bytes a 16-bit field was read from are the bytes that write it back |
| `HeaderCodec.ReadBytesBack32` | reference_implementation/src/util/DataView.ts:56-60 | the bytes a 32-bit field was read from are the bytes that write it back |
| `HeaderCodec.ConstructedRoundTrip` | reference_implementation/src/section/FileHeaderSection.ts:34-41 | every record the constructor yields encodes and decodes back to itself |
| `HeaderCodec.RgbaFixtureDecodes` | reference_implementation/src/parser/section/__tests__/FileHeaderSectionParser-test.ts:19-30 | the RGBA header bytes decode to version 1, 4 channels, 796x800, depth 8, RGB |
| `HeaderCodec.PsbFixtureDecodes` | reference_implementation/src/parser/section/__tests__/FileHeaderSectionParser-test.ts:120-130 | the version-2 header with 800x796 and 4 channels decodes as PSB |
| `HeaderCodec.RgbaFixtureReencodes` | reference_implementation/src/buffer-builder/section/__tests__/FileHeaderSectionBufferBuilder-test.ts:15-19 | the RGBA fields encode to exactly the fixture's 26 bytes |
| `HeaderCodec.RgbaFixtureEncodes` | reference_implementation/src/buffer-builder/section/__tests__/FileHeaderSectionBufferBuilder-test.ts:14-19 | `new FileHeaderSection(800, 796)` with 4 channels encodes to the fixture's first 26 bytes |
| `HeaderCodec.ParseIgnoresOffset` | reference_implementation/src/parser/section/FileHeaderSectionParser.ts:41-46 | the RGBA header behind 2 padding bytes is rejected by `parse` as written, but found when decoding at offset 2 |

## Findings

| source | as written | input that shows it | evidently intended | confidence | as-written member | corrected member |
|---|---|---|---|---|---|---|
| reference_implementation/src/parser/section/FileHeaderSectionParser.ts:41-55 | `parse(buffer, offset)` never uses `offset`: the signature is read at cursor position 0 and the channel count at absolute byte 12 | two zero bytes followed by the RGBA header, with `offset = 2`: rejected as not a PSD file | read the header starting at `offset`, as the parameter's doc comment says | high (reasoned from the code, not executed) | `HeaderCodec.ParseIgnoresOffset` | `HeaderParser.DecodeAtFindsHeader` |

`Parse` keeps the as-written behaviour. Every call shown passes offset 0, where
both definitions agree (`HeaderParser.DecodeAt`): the parser's tests use the
default argument (`FileHeaderSectionParser-test.ts:20-120`), and its doc
example passes 0 (`FileHeaderSectionParser.ts:16`).

## Left out

- File I/O: the tests load fixture files. Their header bytes are written out
  by hand in `HeaderCodec`, from the field values the tests assert.
- Node `Buffer` bounds and value checks: each `DataView` accessor requires
  its offset range inside the buffer and its value within the width, instead
  of modelling the thrown `RangeError`. `Parse` checks lengths itself and
  returns `BufferUnderrun`.
- Cursor.DataView.ReadString: `readString` decodes UTF-8, while the model maps
  one byte to one character. The two agree on ASCII, and the signature
  comparison comes out the same either way.
- Cursor.DataView.WriteString: requires ASCII text that fits the buffer.
  Node's `write` would encode UTF-8 and truncate at the buffer's end, and then
  the cursor, which counts characters, would drift from the bytes written.
- The `write*` methods return `this` for chaining; the Dafny methods return
  nothing, since chaining only changes call syntax.
- HeaderBuilder.BuildBuffer: requires a 4-character ASCII signature and
  numeric fields within their widths. A raw assignment outside those makes the
  TypeScript builder shift the layout or throw, and that is not modelled.
- The `ColorMode` and `ColorDepth` enum modules are not part of this model.
  Colour mode and depth are integers. The colour mode names come from the
  layout table in the parser's doc comment.
- JavaScript number semantics (fractions, NaN): all fields are integers.
- The optional `offset` of the `DataView` accessors is an `Option<int>` and
  not a default argument.
