/** The jpegli decoder adapter (src/codecs/jpegli/decoder/mod.rs): a decoder object that
    holds the whole input, decides which native colour spaces are converted to YCbCr
    before the scanlines are read, maps libjpeg's colour spaces onto the canonical ones,
    and records the dimensions and colour space of the last image it decoded. The jpegli
    library is a parameter: it opens the bytes and reports the native colour space, then
    reads the scanlines raw or converted to a requested space. */
module Jpegli {
  import opened Common

  /** The `should_transform_color_space` test: padded and packed layouts that have no
      canonical counterpart. */
  predicate ShouldTransform(n: JColorSpace)
  {
    n == JCS_EXT_XBGR || n == JCS_EXT_XRGB || n == JCS_EXT_ABGR || n == JCS_RGB565
  }

  /** The jpegli-to-canonical table of `decode`. Total: a native space without a
      canonical counterpart becomes Unknown rather than an error. Unknown is produced
      exactly for the spaces that are transformed before reading and for JCS_UNKNOWN,
      and every other space keeps its number of components. */
  function ToCanonical(n: JColorSpace): (c: ColorSpace)
    ensures c == Unknown <==> ShouldTransform(n) || n == JCS_UNKNOWN
    ensures c != Unknown ==> Components(c) == JcsComponents(n)
    ensures c != LumaA
  {
    match n
    case JCS_GRAYSCALE => Luma
    case JCS_RGB => RGB
    case JCS_YCbCr => YCbCr
    case JCS_CMYK => CMYK
    case JCS_YCCK => YCCK
    case JCS_EXT_RGB => RGB
    case JCS_EXT_RGBX => RGBA
    case JCS_EXT_BGR => BGR
    case JCS_EXT_BGRX => BGRA
    case JCS_EXT_XBGR => Unknown
    case JCS_EXT_XRGB => Unknown
    case JCS_EXT_RGBA => RGBA
    case JCS_EXT_BGRA => BGRA
    case JCS_EXT_ABGR => Unknown
    case JCS_EXT_ARGB => ARGB
    case JCS_RGB565 => Unknown
    case JCS_UNKNOWN => Unknown
  }

  /** The spaces forced through YCbCr are exactly the known libjpeg spaces that have no
      canonical counterpart. */
  lemma TransformedExactlyWhereNoCanonicalSpace(n: JColorSpace)
    ensures ShouldTransform(n) <==> n != JCS_UNKNOWN && ToCanonical(n) == Unknown
  {
  }

  /** The output the decoder asks jpegli for: YCbCr (`to_colorspace`) for the spaces
      that must be transformed, the raw native space (`raw`) otherwise. The space
      asked for always has a canonical counterpart. */
  function RequestedOutput(n: JColorSpace): (r: Option<JColorSpace>)
    ensures r.Some? <==> ShouldTransform(n)
    ensures r.Some? ==> ToCanonical(r.value) != Unknown
  {
    if ShouldTransform(n) then Some(JCS_YCbCr) else None
  }

  /** What jpegli reports once the scanlines are read: the dimensions and colour space
      of the decompressor, and `pixels`, the buffer `finish_into_inner` returns (what
      `read_scanlines` returns is discarded). */
  datatype NativeImage = NativeImage(width: nat, height: nat, colorSpace: JColorSpace, pixels: seq<u8>)

  /** The jpegli library: `open` is `Decompress::with_markers(..).from_mem` followed by
      `color_space()`; `read` is `to_colorspace(space)` (or `raw()` for None), then
      `read_scanlines` and `finish_into_inner`. Errors are `std::io::Error`s. */
  datatype JpegliLib = JpegliLib(
    open: seq<u8> -> Result<JColorSpace, string>,
    read: (seq<u8>, Option<JColorSpace>) -> Result<NativeImage, string>)

  const JpegliFailure: string := "error with jpegli"

  /** The image `decode` produces from the buffered bytes: every library error becomes
      the one generic jpegli error; on success the image carries jpegli's dimensions, the
      buffer `finish_into_inner` returns, and the canonical counterpart of the colour
      space jpegli reports. */
  function DecodeImage(inner: seq<u8>, lib: JpegliLib): (r: Result<Image, ImageError>)
    ensures r.Err? ==> r.error == GenericString(JpegliFailure)
    ensures r.Ok? <==> lib.open(inner).Ok? && lib.read(inner, RequestedOutput(lib.open(inner).value)).Ok?
    ensures r.Ok? ==>
      var img := lib.read(inner, RequestedOutput(lib.open(inner).value)).value;
      r.value.Dimensions() == (img.width, img.height) && r.value.pixels == img.pixels &&
      r.value.colorspace == ToCanonical(img.colorSpace)
  {
    match lib.open(inner)
    case Err(_) => Err(GenericString(JpegliFailure))
    case Ok(native) =>
      match lib.read(inner, RequestedOutput(native))
      case Err(_) => Err(GenericString(JpegliFailure))
      case Ok(img) => Ok(Image(img.width, img.height, ToCanonical(img.colorSpace), img.pixels))
  }

  /** jpegli delivers what it is asked for: the requested space when a conversion is
      requested, the native space when the scanlines are read raw. */
  predicate HonoursRequest(inner: seq<u8>, lib: JpegliLib)
  {
    lib.open(inner).Ok? ==>
      var native := lib.open(inner).value;
      var out := RequestedOutput(native);
      lib.read(inner, out).Ok? ==>
        lib.read(inner, out).value.colorSpace == (if out.Some? then out.value else native)
  }

  /** When jpegli delivers what it is asked for, a decoded image comes out with an
      Unknown colour space only when the file itself declares JCS_UNKNOWN: the
      transform exists so that the padded and packed layouts are not lost. */
  lemma DecodedSpaceKnownUnlessDeclaredUnknown(inner: seq<u8>, lib: JpegliLib)
    requires HonoursRequest(inner, lib)
    requires DecodeImage(inner, lib).Ok?
    ensures DecodeImage(inner, lib).value.colorspace == Unknown <==> lib.open(inner) == Ok(JCS_UNKNOWN)
  {
  }

  /** `JpegliDecoder`: the whole input in `inner`, and the dimensions and colour space
      of the last successful decode. */
  class JpegliDecoder {
    var inner: seq<u8>
    var dimensions: Option<(nat, nat)>
    var colorspace: Option<ColorSpace>

    /** The two fields are set together, and only by a successful decode, so a recorded
        colour space is one the jpegli table produces. */
    ghost predicate Valid()
      reads this
    {
      && (dimensions.Some? <==> colorspace.Some?)
      && colorspace != Some(LumaA)
    }

    /** Builds the decoder around bytes already read. */
    constructor (bytes: seq<u8>)
      ensures Valid()
      ensures inner == bytes && dimensions == None && colorspace == None
    {
      inner := bytes;
      dimensions := None;
      colorspace := None;
    }

    /** `try_new`: the outcome of `read_to_end` on the source is a parameter; a read
        error becomes an I/O error and no decoder; otherwise the decoder holds every
        byte read and knows neither dimensions nor colour space yet. */
    static method TryNew(source: Result<seq<u8>, string>) returns (r: Result<JpegliDecoder, ImageError>)
      ensures r.Ok? <==> source.Ok?
      ensures source.Err? ==> r == Err(IoErrors(source.error))
      ensures r.Ok? ==> fresh(r.value) && r.value.Valid() && r.value.inner == source.value
      ensures r.Ok? ==> r.value.dimensions == None && r.value.colorspace == None
    {
      match source
      case Err(e) =>
        r := Err(IoErrors(e));
      case Ok(bytes) =>
        var d := new JpegliDecoder(bytes);
        r := Ok(d);
    }

    /** `dimensions()`: the stored field; known exactly when the colour space is. */
    function Dimensions(): (d: Option<(nat, nat)>)
      reads this
      ensures d == dimensions
      ensures Valid() ==> (d.Some? <==> colorspace.Some?)
    {
      dimensions
    }

    /** `out_colorspace()`: it unwraps the stored field, so it may only be asked after
        a successful decode, when the dimensions are known too. */
    function OutColorspace(): (c: ColorSpace)
      reads this
      requires colorspace.Some?
      ensures colorspace == Some(c)
      ensures Valid() ==> Dimensions().Some? && c != LumaA
    {
      colorspace.value
    }

    /** `decode`: on success the image is returned and the two fields become its
        dimensions and colour space; on a library error the generic jpegli error is
        returned and neither field changes (the `?` returns before the updates). */
    method Decode(lib: JpegliLib) returns (r: Result<Image, ImageError>)
      requires Valid()
      modifies this
      ensures Valid()
      ensures inner == old(inner)
      ensures r == DecodeImage(inner, lib)
      ensures r.Ok? ==> Dimensions() == Some(r.value.Dimensions()) && OutColorspace() == r.value.colorspace
      ensures r.Err? ==> dimensions == old(dimensions) && colorspace == old(colorspace)
    {
      r := DecodeImage(inner, lib);
      if r.Err? {
        return;
      }
      var image := r.value;
      dimensions := Some(image.Dimensions());
      colorspace := Some(image.colorspace);
    }
  }
}
