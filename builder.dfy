/**
 * The header encoder (`FileHeaderSectionBufferBuilder.buildBuffer`).
 * `Encode` states the 26 bytes by layout; `BuildBuffer` fills a
 * zero-allocated buffer through a cursor and is proved to produce them.
 */
module HeaderBuilder {
  import opened Wrappers
  import opened Bytes
  import opened Cursor
  import opened Header

  const HEADER_SIZE := 26

  /**
   * A record whose fields the cursor's writers accept: a four-character
   * ASCII signature and every numeric field within its field's width.
   */
  predicate Encodable(f: Fields)
  {
    |f.signature| == 4 && IsAscii(f.signature)
    && 0 <= f.version < 65536 && 0 <= f.numChannels < 65536
    && 0 <= f.height < 4294967296 && 0 <= f.width < 4294967296
    && 0 <= f.depth < 65536 && 0 <= f.colorMode < 65536
  }

  /**
   * What a record's setters guarantee is all `buildBuffer` needs of the
   * validated fields: only the publicly assigned signature, version, depth
   * and colour mode can take a record outside what the cursor's writers accept.
   */
  lemma ValidRecordEncodable(h: FileHeaderSection)
    requires h.Valid() && h.signature == SIGNATURE
    requires 0 <= h.version < 65536 && 0 <= h.depth < 65536 && 0 <= h.colorMode < 65536
    ensures Encodable(h.Snapshot())
  {
  }

  /** The 26 bytes of a header: each field big-endian, bytes 6..11 reserved as zero. */
  function Encode(f: Fields): (r: seq<Byte>)
    requires Encodable(f)
    ensures |r| == HEADER_SIZE
  {
    AsciiBytes(f.signature) + ToBigEndian(f.version, 2) + Zeros(6)
    + ToBigEndian(f.numChannels, 2) + ToBigEndian(f.height, 4) + ToBigEndian(f.width, 4)
    + ToBigEndian(f.depth, 2) + ToBigEndian(f.colorMode, 2)
  }

  /** Where each field of `Encode` lies. */
  lemma EncodeSlices(f: Fields)
    requires Encodable(f)
    ensures Encode(f)[0..4] == AsciiBytes(f.signature)
    ensures Encode(f)[4..6] == ToBigEndian(f.version, 2)
    ensures Encode(f)[6..12] == Zeros(6)
    ensures Encode(f)[12..14] == ToBigEndian(f.numChannels, 2)
    ensures Encode(f)[14..18] == ToBigEndian(f.height, 4)
    ensures Encode(f)[18..22] == ToBigEndian(f.width, 4)
    ensures Encode(f)[22..24] == ToBigEndian(f.depth, 2)
    ensures Encode(f)[24..26] == ToBigEndian(f.colorMode, 2)
  {
  }

  /**
   * The byte layout of an encoded header: the signature's ASCII bytes,
   * then each field readable big-endian at its offset, with zero bytes
   * in the reserved zone.
   */
  lemma EncodeLayout(f: Fields)
    requires Encodable(f)
    ensures Encode(f)[..4] == AsciiBytes(f.signature)
    ensures UInt16At(Encode(f), 4) == f.version
    ensures forall i :: 6 <= i < 12 ==> Encode(f)[i] == 0
    ensures UInt16At(Encode(f), 12) == f.numChannels
    ensures UInt32At(Encode(f), 14) == f.height
    ensures UInt32At(Encode(f), 18) == f.width
    ensures UInt16At(Encode(f), 22) == f.depth
    ensures UInt16At(Encode(f), 24) == f.colorMode
  {
    var e := Encode(f);
    EncodeSlices(f);
    FieldAt16(e, 4, f.version);
    FieldAt16(e, 12, f.numChannels);
    FieldAt32(e, 14, f.height);
    FieldAt32(e, 18, f.width);
    FieldAt16(e, 22, f.depth);
    FieldAt16(e, 24, f.colorMode);
    assert forall i :: 6 <= i < 12 ==> e[i] == e[6..12][i - 6];
  }

  /** A 16-bit field written at `o` reads back at `o`. */
  lemma FieldAt16(e: seq<Byte>, o: nat, v: nat)
    requires o + 2 <= |e| && v < 65536 && e[o..o + 2] == ToBigEndian(v, 2)
    ensures UInt16At(e, o) == v
  {
    BigEndianOfToBigEndian(v, 2);
    BigEndianTwo(e[o..o + 2]);
  }

  /** A 32-bit field written at `o` reads back at `o`. */
  lemma FieldAt32(e: seq<Byte>, o: nat, v: nat)
    requires o + 4 <= |e| && v < 4294967296 && e[o..o + 4] == ToBigEndian(v, 4)
    ensures UInt32At(e, o) == v
  {
    BigEndianOfToBigEndian(v, 4);
    BigEndianFour(e[o..o + 4]);
  }

  /** Writing the field at `k` into a buffer holding the first `k` bytes of `e` and zeros after. */
  lemma SpliceStep(e: seq<Byte>, k: nat, x: seq<Byte>)
    requires k + |x| <= |e| && e[k..k + |x|] == x
    ensures Splice(e[..k] + Zeros(|e| - k), k, x) == e[..k + |x|] + Zeros(|e| - k - |x|)
  {
    var s := e[..k] + Zeros(|e| - k);
    var lhs := Splice(s, k, x);
    var rhs := e[..k + |x|] + Zeros(|e| - k - |x|);
    assert |lhs| == |rhs|;
    forall i | 0 <= i < |lhs| ensures lhs[i] == rhs[i] {
      if k <= i < k + |x| {
        assert lhs[i] == lhs[k..k + |x|][i - k] == x[i - k] == e[i];
      } else {
        SpliceKeepsOthers(s, k, x, i);
      }
    }
  }

  /**
   * Overwriting a zero buffer field by field, in layout order, produces
   * exactly the encoded header: the writes tile bytes 0..26 except the
   * reserved zone, which keeps its zeros.
   */
  lemma WritesProduceEncode(f: Fields)
    requires Encodable(f)
    ensures Splice(Splice(Splice(Splice(Splice(Splice(Splice(Zeros(HEADER_SIZE),
              0, AsciiBytes(f.signature)),
              4, ToBigEndian(f.version, 2)),
              12, ToBigEndian(f.numChannels, 2)),
              14, ToBigEndian(f.height, 4)),
              18, ToBigEndian(f.width, 4)),
              22, ToBigEndian(f.depth, 2)),
              24, ToBigEndian(f.colorMode, 2)) == Encode(f)
  {
    var e := Encode(f);
    EncodeSlices(f);
    assert Zeros(HEADER_SIZE) == e[..0] + Zeros(26);
    SpliceStep(e, 0, AsciiBytes(f.signature));
    SpliceStep(e, 4, ToBigEndian(f.version, 2));
    assert e[..6] + Zeros(20) == e[..12] + Zeros(14);
    SpliceStep(e, 12, ToBigEndian(f.numChannels, 2));
    SpliceStep(e, 14, ToBigEndian(f.height, 4));
    SpliceStep(e, 18, ToBigEndian(f.width, 4));
    SpliceStep(e, 22, ToBigEndian(f.depth, 2));
    SpliceStep(e, 24, ToBigEndian(f.colorMode, 2));
    assert e[..26] + Zeros(0) == e;
  }

  /**
   * `buildBuffer(source)`: allocates 26 zero bytes and writes signature,
   * version, (skips 6 reserved bytes), channel count, height, width, depth
   * and colour mode in sequence. The record is only read.
   */
  method BuildBuffer(source: FileHeaderSection) returns (buf: array<Byte>)
    requires Encodable(source.Snapshot())
    ensures fresh(buf)
    ensures buf[..] == Encode(source.Snapshot())
  {
    buf := new Byte[HEADER_SIZE](_ => 0);
    var dataView := new DataView(buf);
    ghost var zeros := buf[..];
    assert zeros == Zeros(HEADER_SIZE);

    dataView.WriteString(source.signature, None);
    dataView.WriteUInt16(source.version, None);
    dataView.Skip(6);
    dataView.WriteUInt16(source.numChannels, None);
    dataView.WriteUInt32(source.height, None);
    dataView.WriteUInt32(source.width, None);
    dataView.WriteUInt16(source.depth, None);
    dataView.WriteUInt16(source.colorMode, None);
    // every byte has been written or skipped exactly once
    assert dataView.currentOffset == HEADER_SIZE;
    WritesProduceEncode(source.Snapshot());
  }
}
