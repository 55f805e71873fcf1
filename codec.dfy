/**
 * How the encoder and the decoder fit together, and the fixture headers
 * the repository's tests compare against.
 */
module HeaderCodec {
  import opened Wrappers
  import opened Bytes
  import opened Header
  import opened HeaderParser
  import opened HeaderBuilder

  /**
   * Decoding an encoded header gives the header back, for every record that
   * satisfies the setter invariant, carries the `8BPS` signature and whose
   * version, depth and colour mode fit in 16 bits.
   */
  lemma DecodeEncode(f: Fields)
    requires f.signature == SIGNATURE && WithinCeiling(f)
    requires 0 <= f.version < 65536 && 0 <= f.depth < 65536 && 0 <= f.colorMode < 65536
    ensures Encodable(f)
    ensures Decode(Encode(f)) == Success(f)
  {
    var e := Encode(f);
    EncodeLayout(f);
    assert AsciiBytes(SIGNATURE) == SIGNATURE_BYTES;
    DecodeSuccess(e);
  }

  /**
   * Encoding a decoded header reproduces the 26 header bytes it came from,
   * except the reserved zone, which comes out zeroed.
   */
  lemma EncodeDecode(b: seq<Byte>)
    requires Decode(b).Success?
    ensures Encodable(Decode(b).value)
    ensures Encode(Decode(b).value) == b[..6] + Zeros(6) + b[12..26]
  {
    DecodeSuccess(b);
    EncodeHeaderBytes(b);
  }

  /** Re-encoding the fields found at the layout offsets of `b`. */
  lemma EncodeHeaderBytes(b: seq<Byte>)
    requires |b| >= 26 && b[..4] == SIGNATURE_BYTES
    ensures Encodable(Fields(SIGNATURE, UInt16At(b, 4), UInt16At(b, 12), UInt32At(b, 14),
                             UInt32At(b, 18), UInt16At(b, 22), UInt16At(b, 24)))
    ensures Encode(Fields(SIGNATURE, UInt16At(b, 4), UInt16At(b, 12), UInt32At(b, 14),
                          UInt32At(b, 18), UInt16At(b, 22), UInt16At(b, 24)))
            == b[..6] + Zeros(6) + b[12..26]
  {
    ReadBytesBack16(b, 4);
    ReadBytesBack16(b, 12);
    ReadBytesBack32(b, 14);
    ReadBytesBack32(b, 18);
    ReadBytesBack16(b, 22);
    ReadBytesBack16(b, 24);
    assert AsciiBytes(SIGNATURE) == b[0..4];
    Reassemble(b);
  }

  /** The field slices of a header, laid end to end with a zeroed reserved zone. */
  lemma Reassemble(b: seq<Byte>)
    requires |b| >= 26
    ensures b[0..4] + b[4..6] + Zeros(6) + b[12..14] + b[14..18] + b[18..22] + b[22..24] + b[24..26]
            == b[..6] + Zeros(6) + b[12..26]
  {
    var lhs := b[0..4] + b[4..6] + Zeros(6) + b[12..14] + b[14..18] + b[18..22] + b[22..24] + b[24..26];
    var rhs := b[..6] + Zeros(6) + b[12..26];
    forall i | 0 <= i < 26 ensures lhs[i] == rhs[i] {
      if 6 <= i < 12 {
        assert lhs[i] == 0 == rhs[i];
      }
    }
  }

  /** The two bytes a 16-bit field was read from are the bytes that write it back. */
  lemma ReadBytesBack16(b: seq<Byte>, o: nat)
    requires o + 2 <= |b|
    ensures ToBigEndian(UInt16At(b, o), 2) == b[o..o + 2]
  {
    BigEndianTwo(b[o..o + 2]);
    ToBigEndianOfBigEndian(b[o..o + 2]);
  }

  /** The four bytes a 32-bit field was read from are the bytes that write it back. */
  lemma ReadBytesBack32(b: seq<Byte>, o: nat)
    requires o + 4 <= |b|
    ensures ToBigEndian(UInt32At(b, o), 4) == b[o..o + 4]
  {
    BigEndianFour(b[o..o + 4]);
    ToBigEndianOfBigEndian(b[o..o + 4]);
  }

  /** Every record the constructor yields can be encoded and decodes back to itself. */
  lemma ConstructedRoundTrip(width: int, height: int)
    requires Construct(width, height).Success?
    ensures Encodable(Construct(width, height).value)
    ensures Decode(Encode(Construct(width, height).value)) == Construct(width, height)
  {
    DecodeEncode(Construct(width, height).value);
  }

  /** The first 26 bytes of the 800 by 796 RGBA fixture: version 1, 4 channels, 8 bits, RGB. */
  const RGBA_PSD: seq<Byte> :=
    [0x38, 0x42, 0x50, 0x53, 0x00, 0x01, 0, 0, 0, 0, 0, 0,
     0x00, 0x04, 0x00, 0x00, 0x03, 0x1C, 0x00, 0x00, 0x03, 0x20, 0x00, 0x08, 0x00, 0x03]

  /** The same header in the large-document variant: version 2. */
  const RGBA_PSB: seq<Byte> :=
    [0x38, 0x42, 0x50, 0x53, 0x00, 0x02, 0, 0, 0, 0, 0, 0,
     0x00, 0x04, 0x00, 0x00, 0x03, 0x1C, 0x00, 0x00, 0x03, 0x20, 0x00, 0x08, 0x00, 0x03]

  /** The RGBA fixture decodes to the documented fields; the colour mode is named RGB. */
  lemma RgbaFixtureDecodes()
    ensures Decode(RGBA_PSD) == Success(Fields(SIGNATURE, PSD, 4, 796, 800, 8, RGB))
    ensures ColorModeName(RGB) == Some("RGB")
  {
    DecodeSuccess(RGBA_PSD);
  }

  /** A version-2 header with 800 by 796 pixels and 4 channels decodes as a large document. */
  lemma PsbFixtureDecodes()
    ensures Decode(RGBA_PSB) == Success(Fields(SIGNATURE, PSB, 4, 796, 800, 8, RGB))
  {
    DecodeSuccess(RGBA_PSB);
  }

  /** The RGBA fixture's fields encode to exactly the fixture's 26 bytes. */
  lemma RgbaFixtureReencodes()
    ensures Encode(Fields(SIGNATURE, PSD, 4, 796, 800, 8, RGB)) == RGBA_PSD
  {
    EncodeHeaderBytes(RGBA_PSD);
    assert RGBA_PSD[6..12] == Zeros(6);
    assert RGBA_PSD[..6] + RGBA_PSD[6..12] + RGBA_PSD[12..26] == RGBA_PSD;
  }

  /**
   * `new FileHeaderSection(800, 796)` with 4 channels encodes to the first
   * 26 bytes of the RGBA fixture.
   */
  lemma RgbaFixtureEncodes(constructed: Fields)
    requires Construct(800, 796) == Success(constructed)
    ensures Encode(constructed.(numChannels := 4)) == RGBA_PSD
  {
    assert constructed.(numChannels := 4) == Fields(SIGNATURE, PSD, 4, 796, 800, 8, RGB);
    RgbaFixtureReencodes();
  }

  /**
   * `parse(buffer, offset)` as written reads at byte 0 whatever `offset`
   * says: the RGBA header behind two bytes of padding is rejected, although
   * decoding at the given offset finds it.
   */
  lemma ParseIgnoresOffset()
    ensures Decode([0, 0] + RGBA_PSD) == Failure(NotAPsdFile)
    ensures DecodeAt([0, 0] + RGBA_PSD, 2) == Success(Fields(SIGNATURE, PSD, 4, 796, 800, 8, RGB))
  {
    var padded := [0, 0] + RGBA_PSD;
    assert padded[0] == 0 != SIGNATURE_BYTES[0];
    assert padded[..4][0] != SIGNATURE_BYTES[0];
    DecodeAtFindsHeader([0, 0], RGBA_PSD);
    RgbaFixtureDecodes();
  }
}
