/**
 * The File Header Section record (`FileHeaderSection`): the fields of the
 * 26-byte header, with validating setters for the channel count and the
 * two pixel dimensions. `signature`, `version`, `depth` and `colorMode`
 * are plain public fields that anyone may assign.
 */
module Header {
  import opened Wrappers

  const SIGNATURE: string := "8BPS"
  const MIN_NUM_CHANNELS := 1
  const MAX_NUM_CHANNELS := 56
  const MIN_PIXELS := 1
  const MAX_PIXELS := 30000
  const MAX_PSB_PIXELS := 300000

  /** The `Version` enum: a standard document, or a large document (PSB). */
  const PSD := 1
  const PSB := 2

  /** Defaults of a new record: RGB colour mode and 8 bits per channel. */
  const RGB := 3
  const DEPTH_8_BIT := 8
  const DEFAULT_NUM_CHANNELS := 3

  /** The conditions on which `FileHeaderSection` and `FileHeaderSectionParser.parse` throw. */
  datatype HeaderError =
    | NotAPsdFile        // signature is not `8BPS`
    | ChannelsOutOfRange // channel count outside 1..56
    | PixelsOutOfRange   // a dimension outside 1..ceiling of the version
    | BufferUnderrun     // a fixed-width read past the end of the buffer

  /** A snapshot of every field of a record, in `toJSON` order. */
  datatype Fields = Fields(
    signature: string,
    version: int,
    numChannels: int,
    height: int,
    width: int,
    depth: int,
    colorMode: int)

  /** The largest width or height a record of `version` accepts. */
  function Ceiling(version: int): int
  {
    if version == PSB then MAX_PSB_PIXELS else MAX_PIXELS
  }

  predicate ChannelsInRange(n: int)
  {
    MIN_NUM_CHANNELS <= n <= MAX_NUM_CHANNELS
  }

  predicate PixelsInRange(v: int, version: int)
  {
    MIN_PIXELS <= v <= Ceiling(version)
  }

  /** The range check of the `height` and `width` setters, as their guard words it. */
  lemma PixelsGuard(v: int, version: int)
    ensures PixelsInRange(v, version)
        <==> MIN_PIXELS <= v && (v <= MAX_PIXELS || (version == PSB && v <= MAX_PSB_PIXELS))
  {
  }

  /** What every setter call keeps: all validated fields within the ceiling of the current version. */
  predicate WithinCeiling(f: Fields)
  {
    ChannelsInRange(f.numChannels) && PixelsInRange(f.height, f.version) && PixelsInRange(f.width, f.version)
  }

  /** The version a constructor picks from the initial dimensions. */
  function ConstructedVersion(width: int, height: int): int
  {
    if width > MAX_PIXELS || height > MAX_PIXELS then PSB else PSD
  }

  /**
   * What `new FileHeaderSection(width, height)` yields: the version chosen
   * from the dimensions, then the width and the height through their setters.
   */
  function Construct(width: int, height: int): (r: Result<Fields, HeaderError>)
    ensures r.Success? <==> MIN_PIXELS <= width <= MAX_PSB_PIXELS && MIN_PIXELS <= height <= MAX_PSB_PIXELS
    ensures r.Failure? ==> r.error == PixelsOutOfRange
    ensures r.Success? ==> WithinCeiling(r.value)
    ensures r.Success? ==> r.value.width == width && r.value.height == height
    ensures r.Success? ==> (r.value.version == PSB <==> width > MAX_PIXELS || height > MAX_PIXELS)
    ensures r.Success? ==> r.value.version == PSD || r.value.version == PSB
    ensures r.Success? ==>
              r.value.signature == SIGNATURE && r.value.numChannels == DEFAULT_NUM_CHANNELS
              && r.value.depth == DEPTH_8_BIT && r.value.colorMode == RGB
  {
    var version := ConstructedVersion(width, height);
    if !PixelsInRange(width, version) || !PixelsInRange(height, version) then Failure(PixelsOutOfRange)
    else Success(Fields(SIGNATURE, version, DEFAULT_NUM_CHANNELS, height, width, DEPTH_8_BIT, RGB))
  }

  /**
   * Construction examples: the defaults, a large document picked from the
   * width, a too-small dimension, and the 400 by 30 record of the
   * `toJSON` example.
   */
  lemma ConstructExamples()
    ensures Construct(MIN_PIXELS, MIN_PIXELS) == Success(Fields(SIGNATURE, PSD, 3, 1, 1, 8, RGB))
    ensures Construct(200000, 30000) == Success(Fields(SIGNATURE, PSB, 3, 30000, 200000, 8, RGB))
    ensures Construct(0, 0) == Failure(PixelsOutOfRange)
    ensures Construct(400, 30) == Success(Fields(SIGNATURE, PSD, 3, 30, 400, 8, RGB))
    ensures Construct(MAX_PIXELS + 100, 200).value.version == PSB
  {
  }

  /**
   * Setter boundaries, for a standard record and for the large record built
   * from 30001 by 30001: 1 and the ceiling are accepted, one past either end
   * is not, and 30001 is accepted only by the large record.
   */
  lemma SetterBoundaries()
    ensures ChannelsInRange(MIN_NUM_CHANNELS) && ChannelsInRange(MAX_NUM_CHANNELS)
    ensures !ChannelsInRange(MIN_NUM_CHANNELS - 1) && !ChannelsInRange(MAX_NUM_CHANNELS + 1)
    ensures PixelsInRange(MIN_PIXELS, PSD) && PixelsInRange(MAX_PIXELS, PSD)
    ensures !PixelsInRange(MIN_PIXELS - 1, PSD) && !PixelsInRange(MAX_PIXELS + 1, PSD)
    ensures Construct(MAX_PIXELS + 1, MAX_PIXELS + 1).Success?
    ensures Construct(MAX_PIXELS + 1, MAX_PIXELS + 1).value.version == PSB
    ensures PixelsInRange(MIN_PIXELS, PSB) && PixelsInRange(MAX_PIXELS + 1, PSB) && PixelsInRange(MAX_PSB_PIXELS, PSB)
    ensures !PixelsInRange(MIN_PIXELS - 1, PSB) && !PixelsInRange(MAX_PSB_PIXELS + 1, PSB)
  {
  }

  /** The name the `ColorMode` enum gives a colour mode code, if any. */
  function ColorModeName(code: int): (r: Option<string>)
    ensures r.Some? <==> code in {0, 1, 2, 3, 4, 7, 8, 9}
  {
    match code
    case 0 => Some("Bitmap")
    case 1 => Some("Grayscale")
    case 2 => Some("Indexed")
    case 3 => Some("RGB")
    case 4 => Some("CMYK")
    case 7 => Some("Multichannel")
    case 8 => Some("Duotone")
    case 9 => Some("Lab")
    case _ => None
  }

  /** The code the `ColorMode` enum gives a colour mode name, if any. */
  function ColorModeCode(name: string): (r: Option<int>)
    ensures r.Some? ==> ColorModeName(r.value) == Some(name)
  {
    match name
    case "Bitmap" => Some(0)
    case "Grayscale" => Some(1)
    case "Indexed" => Some(2)
    case "RGB" => Some(3)
    case "CMYK" => Some(4)
    case "Multichannel" => Some(7)
    case "Duotone" => Some(8)
    case "Lab" => Some(9)
    case _ => None
  }

  /** A colour mode's name identifies its code: the name table is one to one. */
  lemma ColorModeNameInverse(code: int)
    requires ColorModeName(code).Some?
    ensures ColorModeCode(ColorModeName(code).value) == Some(code)
  {
  }

  /** What `toJSON` reports: the fields, with the colour mode by name (`None` for an undefined name). */
  datatype Json = Json(
    signature: string,
    version: int,
    numChannels: int,
    height: int,
    width: int,
    depth: int,
    colorMode: Option<string>)

  class FileHeaderSection {
    var colorMode: int
    var depth: int
    var signature: string
    var version: int
    var numChannels: int
    var height: int
    var width: int

    function Snapshot(): Fields
      reads this
    {
      Fields(signature, version, numChannels, height, width, depth, colorMode)
    }

    /** Bounds no assignment can break: setters only ever store values up to the larger ceiling. */
    predicate Valid()
      reads this
    {
      ChannelsInRange(numChannels)
      && MIN_PIXELS <= height <= MAX_PSB_PIXELS
      && MIN_PIXELS <= width <= MAX_PSB_PIXELS
    }

    /** `new FileHeaderSection()`: every field at its default, 1 by 1 pixels. */
    constructor ()
      ensures Snapshot() == Fields(SIGNATURE, PSD, DEFAULT_NUM_CHANNELS, MIN_PIXELS, MIN_PIXELS, DEPTH_8_BIT, RGB)
      ensures Valid() && WithinCeiling(Snapshot())
    {
      colorMode := RGB;
      depth := DEPTH_8_BIT;
      signature := SIGNATURE;
      version := PSD;
      numChannels := DEFAULT_NUM_CHANNELS;
      height := MIN_PIXELS;
      width := MIN_PIXELS;
    }

    /**
     * `new FileHeaderSection(width, height)`: switches to PSB when either
     * dimension exceeds 30000, then assigns both through their setters,
     * failing as the first failing setter does.
     */
    static method Create(width: int, height: int) returns (r: Result<FileHeaderSection, HeaderError>)
      ensures r.Failure? <==> Construct(width, height).Failure?
      ensures r.Failure? ==> r.error == Construct(width, height).error
      ensures r.Success? ==> fresh(r.value) && r.value.Valid()
      ensures r.Success? ==> Construct(width, height) == Success(r.value.Snapshot())
    {
      var header := new FileHeaderSection();
      if width > MAX_PIXELS || height > MAX_PIXELS {
        header.version := PSB;
      }
      var status := header.SetWidth(width);
      if status.Fail? {
        return Failure(status.error);
      }
      status := header.SetHeight(height);
      if status.Fail? {
        return Failure(status.error);
      }
      return Success(header);
    }

    /** The `numChannels` setter. */
    method SetNumChannels(n: int) returns (status: Outcome<HeaderError>)
      modifies this
      ensures status.Pass? <==> ChannelsInRange(n)
      ensures status.Fail? ==> status.error == ChannelsOutOfRange
      ensures Snapshot() == if status.Pass? then old(Snapshot()).(numChannels := n) else old(Snapshot())
      ensures old(Valid()) ==> Valid()
      ensures old(WithinCeiling(Snapshot())) ==> WithinCeiling(Snapshot())
    {
      if MIN_NUM_CHANNELS <= n && n <= MAX_NUM_CHANNELS {
        numChannels := n;
        status := Pass;
      } else {
        status := Fail(ChannelsOutOfRange);
      }
    }

    /** The `height` setter: the ceiling is that of the current version. */
    method SetHeight(v: int) returns (status: Outcome<HeaderError>)
      modifies this
      ensures status.Pass? <==> PixelsInRange(v, version)
      ensures status.Fail? ==> status.error == PixelsOutOfRange
      ensures Snapshot() == if status.Pass? then old(Snapshot()).(height := v) else old(Snapshot())
      ensures old(Valid()) ==> Valid()
      ensures old(WithinCeiling(Snapshot())) ==> WithinCeiling(Snapshot())
    {
      var psb := IsPSB();
      if MIN_PIXELS <= v && (v <= MAX_PIXELS || (psb && v <= MAX_PSB_PIXELS)) {
        height := v;
        status := Pass;
      } else {
        status := Fail(PixelsOutOfRange);
      }
    }

    /** The `width` setter: the ceiling is that of the current version. */
    method SetWidth(v: int) returns (status: Outcome<HeaderError>)
      modifies this
      ensures status.Pass? <==> PixelsInRange(v, version)
      ensures status.Fail? ==> status.error == PixelsOutOfRange
      ensures Snapshot() == if status.Pass? then old(Snapshot()).(width := v) else old(Snapshot())
      ensures old(Valid()) ==> Valid()
      ensures old(WithinCeiling(Snapshot())) ==> WithinCeiling(Snapshot())
    {
      var psb := IsPSB();
      if MIN_PIXELS <= v && (v <= MAX_PIXELS || (psb && v <= MAX_PSB_PIXELS)) {
        width := v;
        status := Pass;
      } else {
        status := Fail(PixelsOutOfRange);
      }
    }

    /** A large document is exactly one whose dimensions may reach the larger ceiling. */
    function IsPSB(): (r: bool)
      reads this
      ensures r <==> Ceiling(version) == MAX_PSB_PIXELS
    {
      version == PSB
    }

    /** The fields as reported for serialisation, the colour mode by its enum name. */
    function ToJSON(): (r: Json)
      reads this
      ensures r.colorMode.Some? ==> ColorModeCode(r.colorMode.value) == Some(colorMode)
      ensures r.colorMode.None? <==> colorMode !in {0, 1, 2, 3, 4, 7, 8, 9}
      ensures Fields(r.signature, r.version, r.numChannels, r.height, r.width, r.depth, colorMode) == Snapshot()
    {
      Json(signature, version, numChannels, height, width, depth, ColorModeName(colorMode))
    }
  }
}
