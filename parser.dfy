/**
 * The header decoder (`FileHeaderSectionParser.parse`). `Decode` states
 * the result by absolute byte offsets; `Parse` reads the same fields
 * through a cursor in the order `parse` reads them and is proved to agree with it.
 */
module HeaderParser {
  import opened Wrappers
  import opened Bytes
  import opened Cursor
  import opened Header

  /** `8BPS` in ASCII. */
  const SIGNATURE_BYTES: seq<Byte> := [0x38, 0x42, 0x50, 0x53]

  /** The signature is found exactly when the first four bytes are `8BPS` in ASCII. */
  lemma SignatureText(b: seq<Byte>)
    ensures Chars(Clipped(b, 0, 4)) == SIGNATURE <==> |b| >= 4 && b[..4] == SIGNATURE_BYTES
  {
    assert Chars(SIGNATURE_BYTES) == SIGNATURE;
    if Chars(Clipped(b, 0, 4)) == SIGNATURE {
      CharsInjective(Clipped(b, 0, 4), SIGNATURE_BYTES);
    }
  }

  /**
   * The header decoded from `b`, failing where `parse` throws: the signature
   * first, then each field in layout order, a read past the end of the
   * buffer failing where it happens and each validated field failing as
   * soon as it is assigned. The version is assigned before the dimensions,
   * so the ceiling comes from the decoded version; bytes 6..11 are skipped.
   */
  function Decode(b: seq<Byte>): (r: Result<Fields, HeaderError>)
    ensures r.Success? ==> WithinCeiling(r.value) && r.value.signature == SIGNATURE
    ensures r.Success? ==> |b| >= 26
  {
    if |b| < 4 || b[..4] != SIGNATURE_BYTES then Failure(NotAPsdFile)
    else if |b| < 6 then Failure(BufferUnderrun)
    else DecodeFields(b, UInt16At(b, 4))
  }

  /** The fields from byte 12 on, decoded for a header of `version`. */
  function DecodeFields(b: seq<Byte>, version: int): (r: Result<Fields, HeaderError>)
    ensures r.Success? ==> WithinCeiling(r.value) && r.value.signature == SIGNATURE && r.value.version == version
    ensures r.Success? ==> |b| >= 26
  {
    if |b| < 14 then Failure(BufferUnderrun)
    else if !ChannelsInRange(UInt16At(b, 12)) then Failure(ChannelsOutOfRange)
    else if |b| < 18 then Failure(BufferUnderrun)
    else if !PixelsInRange(UInt32At(b, 14), version) then Failure(PixelsOutOfRange)
    else if |b| < 22 then Failure(BufferUnderrun)
    else if !PixelsInRange(UInt32At(b, 18), version) then Failure(PixelsOutOfRange)
    else if |b| < 26 then Failure(BufferUnderrun)
    else Success(Fields(SIGNATURE, version, UInt16At(b, 12), UInt32At(b, 14), UInt32At(b, 18),
                        UInt16At(b, 22), UInt16At(b, 24)))
  }

  /**
   * `FileHeaderSectionParser.parse(buffer, offset)`. The `offset` argument
   * is accepted and ignored: the signature is read at the cursor's initial
   * position 0 and the channel count at absolute byte 12.
   */
  method Parse(buffer: array<Byte>, offset: int) returns (r: Result<FileHeaderSection, HeaderError>)
    ensures r.Failure? <==> Decode(buffer[..]).Failure?
    ensures r.Failure? ==> r.error == Decode(buffer[..]).error
    ensures r.Success? ==> fresh(r.value) && r.value.Valid() && Decode(buffer[..]) == Success(r.value.Snapshot())
  {
    var dataView := new DataView(buffer);
    var header := new FileHeaderSection();

    var signature := dataView.ReadString(4, None);
    SignatureText(buffer[..]);
    if signature != SIGNATURE {
      return Failure(NotAPsdFile);
    }

    if buffer.Length < 6 {
      return Failure(BufferUnderrun);
    }
    header.version := dataView.ReadUInt16(None);

    var status := ReadFields(dataView, header);
    if status.Fail? {
      return Failure(status.error);
    }
    return Success(header);
  }

  /**
   * The rest of `parse`: the channel count at byte 12, then height, width,
   * depth and colour mode in sequence, each validated field through its setter.
   */
  method ReadFields(dataView: DataView, header: FileHeaderSection) returns (status: Outcome<HeaderError>)
    requires dataView.buffer.Length >= 6
    requires header.Snapshot() == Fields(SIGNATURE, header.version, DEFAULT_NUM_CHANNELS, MIN_PIXELS, MIN_PIXELS, DEPTH_8_BIT, RGB)
    modifies dataView, header
    ensures dataView.buffer == old(dataView.buffer)
    ensures status.Fail? <==> DecodeFields(dataView.buffer[..], old(header.version)).Failure?
    ensures status.Fail? ==> status.error == DecodeFields(dataView.buffer[..], old(header.version)).error
    ensures status.Pass? ==> header.Valid() && DecodeFields(dataView.buffer[..], old(header.version)) == Success(header.Snapshot())
  {
    var buffer := dataView.buffer;
    if buffer.Length < 14 {
      return Fail(BufferUnderrun);
    }
    var numChannels := dataView.ReadUInt16(Some(12));
    status := header.SetNumChannels(numChannels);
    if status.Fail? {
      return;
    }

    if buffer.Length < 18 {
      return Fail(BufferUnderrun);
    }
    var height := dataView.ReadUInt32(None);
    status := header.SetHeight(height);
    if status.Fail? {
      return;
    }

    if buffer.Length < 22 {
      return Fail(BufferUnderrun);
    }
    var width := dataView.ReadUInt32(None);
    status := header.SetWidth(width);
    if status.Fail? {
      return;
    }

    if buffer.Length < 24 {
      return Fail(BufferUnderrun);
    }
    header.depth := dataView.ReadUInt16(None);

    if buffer.Length < 26 {
      return Fail(BufferUnderrun);
    }
    header.colorMode := dataView.ReadUInt16(None);
  }

  /**
   * When decoding succeeds, and what it yields: a buffer of at least 26
   * bytes starting with `8BPS`, whose channel count is in 1..56 and whose
   * dimensions are within the ceiling of the version at byte 4; the fields
   * are the big-endian values at their layout offsets.
   */
  lemma DecodeSuccess(b: seq<Byte>)
    ensures Decode(b).Success? <==>
              |b| >= 26 && b[..4] == SIGNATURE_BYTES
              && ChannelsInRange(UInt16At(b, 12))
              && PixelsInRange(UInt32At(b, 14), UInt16At(b, 4))
              && PixelsInRange(UInt32At(b, 18), UInt16At(b, 4))
    ensures Decode(b).Success? ==>
              Decode(b).value == Fields(SIGNATURE, UInt16At(b, 4), UInt16At(b, 12), UInt32At(b, 14),
                                        UInt32At(b, 18), UInt16At(b, 22), UInt16At(b, 24))
  {
  }

  /** A buffer that does not start with `8BPS` is rejected as not a PSD file, whatever follows. */
  lemma DecodeSignatureFirst(b: seq<Byte>)
    ensures Decode(b) == Failure(NotAPsdFile) <==> |b| < 4 || b[..4] != SIGNATURE_BYTES
  {
  }

  /** Bytes 6..11 are never inspected: buffers differing only there decode alike. */
  lemma DecodeIgnoresReserved(b: seq<Byte>, c: seq<Byte>)
    requires |b| == |c|
    requires forall i :: 0 <= i < |b| && !(6 <= i < 12) ==> b[i] == c[i]
    ensures Decode(b) == Decode(c)
  {
    if |b| >= 4 {
      assert b[..4] == c[..4];
    }
  }

  /** Only the first 26 bytes matter: what follows the header never changes the result. */
  lemma DecodeOnlyHeaderBytes(b: seq<Byte>)
    requires |b| >= 26
    ensures Decode(b) == Decode(b[..26])
  {
    assert b[..26][..4] == b[..4];
  }

  /** Any 16-bit depth and colour mode are accepted and reported unchanged. */
  lemma DecodeAcceptsAnyDepthAndColorMode(b: seq<Byte>, depth: nat, colorMode: nat)
    requires |b| >= 26 && depth < 65536 && colorMode < 65536
    ensures Decode(b).Success? ==>
              var c := b[..22] + [depth / 256, depth % 256, colorMode / 256, colorMode % 256] + b[26..];
              Decode(c).Success? && Decode(c).value == Decode(b).value.(depth := depth, colorMode := colorMode)
  {
    var c := b[..22] + [depth / 256, depth % 256, colorMode / 256, colorMode % 256] + b[26..];
    assert c[..4] == b[..4];
    assert forall i :: 0 <= i < 22 ==> c[i] == b[i];
  }

  /**
   * Decoding a header that starts `offset` bytes into the buffer, as the
   * documented `offset` parameter of `parse` promises.
   */
  function DecodeAt(b: seq<Byte>, offset: nat): (r: Result<Fields, HeaderError>)
    requires offset <= |b|
    ensures offset == 0 ==> r == Decode(b)
  {
    Decode(b[offset..])
  }

  /** A header placed after any prefix is found at the prefix's length. */
  lemma DecodeAtFindsHeader(prefix: seq<Byte>, b: seq<Byte>)
    ensures DecodeAt(prefix + b, |prefix|) == Decode(b)
  {
    assert (prefix + b)[|prefix|..] == b;
  }
}
