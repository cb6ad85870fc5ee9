/** Types shared by the pipeline front end and the codec adapters: the canonical
    image model of zune_core/zune_image, the libjpeg colour-space enumeration used by
    both the mozjpeg and the jpegli crates, and the error taxonomy. */
module Common {

  /** Rust's `u8`. */
  type u8 = x: int | 0 <= x < 256

  datatype Option<+T> = None | Some(value: T)

  datatype Result<+T, +E> = Ok(value: T) | Err(error: E)

  /** The canonical colour spaces of zune_core. `LumaA` stands for the variants of
      zune_core's enumeration that the core never names and that only reach the
      wildcard arms of its matches. */
  datatype ColorSpace = RGB | RGBA | YCbCr | Luma | LumaA | YCCK | CMYK | BGR | BGRA | ARGB | Unknown

  /** Channels per pixel of a canonical colour space (0 for Unknown). */
  function Components(c: ColorSpace): nat
  {
    match c
    case Luma => 1
    case LumaA => 2
    case RGB | BGR | YCbCr => 3
    case RGBA | BGRA | ARGB | YCCK | CMYK => 4
    case Unknown => 0
  }

  datatype BitDepth = Eight | Sixteen | Float32 | UnknownDepth

  /** libjpeg's J_COLOR_SPACE, re-exported as `mozjpeg::ColorSpace` and
      `jpegli::ColorSpace` (the same seventeen variants in both crates). */
  datatype JColorSpace =
    | JCS_UNKNOWN | JCS_GRAYSCALE | JCS_RGB | JCS_YCbCr | JCS_CMYK | JCS_YCCK
    | JCS_EXT_RGB | JCS_EXT_RGBX | JCS_EXT_BGR | JCS_EXT_BGRX | JCS_EXT_XBGR
    | JCS_EXT_XRGB | JCS_EXT_RGBA | JCS_EXT_BGRA | JCS_EXT_ABGR | JCS_EXT_ARGB
    | JCS_RGB565

  /** Components per pixel of a libjpeg colour space, padding bytes included
      (0 for JCS_UNKNOWN, whose layout libjpeg does not fix). */
  function JcsComponents(j: JColorSpace): nat
  {
    match j
    case JCS_UNKNOWN => 0
    case JCS_GRAYSCALE => 1
    case JCS_RGB | JCS_YCbCr | JCS_EXT_RGB | JCS_EXT_BGR | JCS_RGB565 => 3
    case JCS_CMYK | JCS_YCCK | JCS_EXT_RGBX | JCS_EXT_BGRX | JCS_EXT_XBGR
       | JCS_EXT_XRGB | JCS_EXT_RGBA | JCS_EXT_BGRA | JCS_EXT_ABGR | JCS_EXT_ARGB => 4
  }

  datatype ImageFormat = JPEG | PNG | PPM | QOI | JPEG_XL | Farbfeld | WebP | AVIF | UnknownFormat

  datatype EncodeError = Generic(message: string) | GenericStatic(text: string)

  /** The variants of zune_image's `ImageErrors` that the core produces or inspects;
      `ImageDecodeErrors` stands for every failure of a decoder that recognised its input. */
  datatype ImageError =
    | ImageDecoderNotIncluded(format: ImageFormat)
    | ImageDecoderNotImplemented(format: ImageFormat)
    | ImageDecodeErrors(reason: string)
    | GenericString(text: string)
    | GenericStr(literal: string)
    | EncodeErrors(cause: EncodeError)
    | IoErrors(ioMessage: string)

  /** A decoded image: its dimensions, colour space and flattened 8-bit samples. */
  datatype Image = Image(width: nat, height: nat, colorspace: ColorSpace, pixels: seq<u8>)
  {
    function Dimensions(): (nat, nat) { (width, height) }
  }
}
