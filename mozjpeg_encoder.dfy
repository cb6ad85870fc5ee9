/** The MozJpeg encoder adapter (src/codecs/mozjpeg/encoder/mod.rs): its options and
    their defaults, the mapping from canonical colour spaces to libjpeg's, the rule that
    forces the output colour space of grayscale, CMYK and YCCK inputs, the order and
    conditions of the configuration calls made on the mozjpeg compressor, the conversion
    of a panic inside the library into an error, and the supported bit depths. The
    compressor itself is a parameter: it receives the input colour space, the recorded
    configuration calls and the samples, and either returns or panics. */
module MozJpeg {
  import opened Common

  /** The base quantisation tables of `mozjpeg::qtable` (`AnnexK_*` are the example
      tables of Annex K of ITU-T T.81). */
  datatype BaseQTable =
    | AhumadaWatsonPeterson | AnnexK_Luma | AnnexK_Chroma | Flat | KleinSilversteinCarney
    | MSSSIM_Luma | MSSSIM_Chroma | NRobidoux | PSNRHVS_Luma | PSNRHVS_Chroma
    | PetersonAhumadaWatson | WatsonTaylorBorthwick

  /** The table `base.scaled(first, second)`; only the base and the two quality
      arguments are recorded, not the scaled coefficients. */
  datatype ScaledQTable = Scaled(base: BaseQTable, first: real, second: real)

  /** `MozJpegOptions`; `quality` is the `f32` of the source, taken exactly. */
  datatype MozJpegOptions = MozJpegOptions(
    quality: real,
    progressive: bool,
    optimizeCoding: bool,
    smoothing: u8,
    colorSpace: JColorSpace,
    trellisMultipass: bool,
    chromaSubsample: Option<u8>,
    lumaQtable: Option<ScaledQTable>,
    chromaQtable: Option<ScaledQTable>)

  /** The quantisation tables come as a pair or not at all, and each is scaled at one
      quality for both of its arguments. */
  predicate TablesPaired(o: MozJpegOptions)
  {
    && (o.lumaQtable.Some? <==> o.chromaQtable.Some?)
    && (o.lumaQtable.Some? ==> o.lumaQtable.value.first == o.lumaQtable.value.second)
    && (o.chromaQtable.Some? ==> o.chromaQtable.value.first == o.chromaQtable.value.second)
  }

  /** `MozJpegOptions::default()`: quality 75, progressive, optimised Huffman coding,
      no smoothing, YCbCr output, single-pass trellis, library sampling and tables. */
  function DefaultOptions(): (o: MozJpegOptions)
    ensures TablesPaired(o) && o.lumaQtable.None?
    ensures o.quality == 75.0
    ensures o.progressive && o.optimizeCoding && !o.trellisMultipass
    ensures o.colorSpace == JCS_YCbCr && o.chromaSubsample.None? && o.smoothing == 0
  {
    MozJpegOptions(
      quality := 75.0,
      progressive := true,
      optimizeCoding := true,
      smoothing := 0,
      colorSpace := JCS_YCbCr,
      trellisMultipass := false,
      chromaSubsample := None,
      lumaQtable := None,
      chromaQtable := None)
  }

  /** `MozJpegEncoder`: it holds its options and nothing else. */
  datatype MozJpegEncoder = MozJpegEncoder(options: MozJpegOptions)

  /** `MozJpegEncoder::new_with_options`: the options are stored unchanged. */
  function NewWithOptions(o: MozJpegOptions): (e: MozJpegEncoder)
    ensures e.options == o
  {
    MozJpegEncoder(o)
  }

  /** `MozJpegEncoder::new` (via `Default`): the encoder built from the default options. */
  function New(): (e: MozJpegEncoder)
    ensures e == NewWithOptions(DefaultOptions())
    ensures e.options.quality == 75.0
  {
    MozJpegEncoder(DefaultOptions())
  }

  /** `supported_colorspaces`: the nine canonical spaces the encoder accepts. */
  function SupportedColorspaces(): (s: seq<ColorSpace>)
    ensures |s| == 9 && Unknown !in s && LumaA !in s
    ensures forall i, j | 0 <= i < j < |s| :: s[i] != s[j]
  {
    [Luma, RGBA, RGB, YCCK, CMYK, BGR, BGRA, ARGB, YCbCr]
  }

  /** The input colour-space `match` of `encode_inner`, total over the canonical
      spaces: a space the encoder supports gets a libjpeg space with the same number of
      components, every other one gets JCS_UNKNOWN. */
  function ToJcs(c: ColorSpace): (j: JColorSpace)
    ensures j == JCS_UNKNOWN <==> c !in SupportedColorspaces()
    ensures j != JCS_UNKNOWN ==> JcsComponents(j) == Components(c)
  {
    match c
    case RGB => JCS_RGB
    case RGBA => JCS_EXT_RGBA
    case YCbCr => JCS_YCbCr
    case Luma => JCS_GRAYSCALE
    case YCCK => JCS_YCCK
    case CMYK => JCS_CMYK
    case BGR => JCS_EXT_BGR
    case BGRA => JCS_EXT_BGRA
    case ARGB => JCS_EXT_ARGB
    case Unknown => JCS_UNKNOWN
    case LumaA => JCS_UNKNOWN
  }

  /** Distinct supported canonical spaces are handed to the compressor as distinct
      libjpeg spaces. */
  lemma ToJcsInjectiveOnSupported(c: ColorSpace, d: ColorSpace)
    requires c in SupportedColorspaces() && d in SupportedColorspaces()
    requires ToJcs(c) == ToJcs(d)
    ensures c == d
  {
  }

  /** Input spaces whose colour space the compressor keeps for its output. */
  predicate ForcesOutput(format: JColorSpace)
  {
    format == JCS_GRAYSCALE || format == JCS_CMYK || format == JCS_YCCK
  }

  /** The argument of `set_color_space`: a grayscale, CMYK or YCCK input keeps its own
      space, any other input is written in the space the options request. */
  function OutputColorSpace(format: JColorSpace, requested: JColorSpace): (out: JColorSpace)
    ensures ForcesOutput(format) ==> out == format
    ensures !ForcesOutput(format) ==> out == requested
  {
    match format
    case JCS_GRAYSCALE => JCS_GRAYSCALE
    case JCS_CMYK => JCS_CMYK
    case JCS_YCCK => JCS_YCCK
    case _ => requested
  }

  /** Seen from the canonical input: Luma, CMYK and YCCK images are never converted to
      another space, whatever the options request; every other image is. */
  lemma OutputOverrideByCanonicalSpace(c: ColorSpace, requested: JColorSpace)
    ensures c in {Luma, CMYK, YCCK} ==>
      OutputColorSpace(ToJcs(c), requested) == ToJcs(c) &&
      JcsComponents(OutputColorSpace(ToJcs(c), requested)) == Components(c)
    ensures c !in {Luma, CMYK, YCCK} ==> OutputColorSpace(ToJcs(c), requested) == requested
  {
  }

  /** The configuration calls `encode_inner` makes on `mozjpeg::Compress`. */
  datatype CompressCall =
    | SetSize(width: nat, height: nat)
    | SetQuality(quality: real)
    | SetProgressiveMode
    | SetOptimizeCoding(optimize: bool)
    | SetSmoothingFactor(factor: u8)
    | SetColorSpace(space: JColorSpace)
    | SetUseScansInTrellis(multipass: bool)
    | SetChromaSamplingPixelSizes(cb: (u8, u8), cr: (u8, u8))
    | SetLumaQtable(luma: ScaledQTable)
    | SetChromaQtable(chroma: ScaledQTable)
  {
    /** Calls that configure the chroma components or the tables. */
    predicate AfterColorSpace()
    {
      SetChromaSamplingPixelSizes? || SetLumaQtable? || SetChromaQtable?
    }
  }

  /** Each call carries what the options (or the image) say for it. */
  predicate CallAgrees(o: MozJpegOptions, width: nat, height: nat, format: JColorSpace, c: CompressCall)
  {
    match c
    case SetSize(w, h) => w == width && h == height
    case SetQuality(q) => q == o.quality
    case SetProgressiveMode => o.progressive
    case SetOptimizeCoding(on) => on == o.optimizeCoding
    case SetSmoothingFactor(f) => f == o.smoothing
    case SetColorSpace(s) => s == OutputColorSpace(format, o.colorSpace)
    case SetUseScansInTrellis(on) => on == o.trellisMultipass
    case SetChromaSamplingPixelSizes(cb, cr) =>
      o.chromaSubsample.Some? && cb == (o.chromaSubsample.value, o.chromaSubsample.value) && cr == cb
    case SetLumaQtable(t) => o.lumaQtable == Some(t)
    case SetChromaQtable(t) => o.chromaQtable == Some(t)
  }

  /** Every call carries what the options (or the image) say for it. */
  predicate AllCallsAgree(o: MozJpegOptions, width: nat, height: nat, format: JColorSpace, calls: seq<CompressCall>)
  {
    forall i | 0 <= i < |calls| :: CallAgrees(o, width, height, format, calls[i])
  }

  /** The colour space is set before the chroma sampling and the tables. */
  predicate ColorSpaceSetFirst(calls: seq<CompressCall>)
  {
    forall i, j | 0 <= i < |calls| && 0 <= j < |calls| ::
      calls[i].SetColorSpace? && calls[j].AfterColorSpace() ==> i < j
  }

  /** What `encode_inner` promises about the compressor it configures: the input space
      is the mapped image space; every call agrees with the options; the unconditional
      setters are all made; progressive mode is switched on exactly when requested; a
      subsample value and each table are applied exactly when present; and the colour
      space is set before the chroma sampling and the tables. */
  predicate ConfiguredAsOptionsSay(
    o: MozJpegOptions, width: nat, height: nat, input: ColorSpace,
    format: JColorSpace, calls: seq<CompressCall>)
  {
    && format == ToJcs(input)
    && AllCallsAgree(o, width, height, format, calls)
    && SetSize(width, height) in calls
    && SetQuality(o.quality) in calls
    && (SetProgressiveMode in calls <==> o.progressive)
    && SetOptimizeCoding(o.optimizeCoding) in calls
    && SetSmoothingFactor(o.smoothing) in calls
    && SetColorSpace(OutputColorSpace(format, o.colorSpace)) in calls
    && SetUseScansInTrellis(o.trellisMultipass) in calls
    && (o.chromaSubsample.Some? ==>
          var sb := o.chromaSubsample.value;
          SetChromaSamplingPixelSizes((sb, sb), (sb, sb)) in calls)
    && (o.lumaQtable.Some? ==> SetLumaQtable(o.lumaQtable.value) in calls)
    && (o.chromaQtable.Some? ==> SetChromaQtable(o.chromaQtable.value) in calls)
    && ColorSpaceSetFirst(calls)
  }

  /** The calls made before `set_color_space`. */
  function SetupBeforeColorSpace(o: MozJpegOptions, width: nat, height: nat): seq<CompressCall>
  {
    [SetSize(width, height), SetQuality(o.quality)]
    + (if o.progressive then [SetProgressiveMode] else [])
    + [SetOptimizeCoding(o.optimizeCoding), SetSmoothingFactor(o.smoothing)]
  }

  /** The calls made after `set_color_space`. */
  function SetupAfterColorSpace(o: MozJpegOptions): seq<CompressCall>
  {
    [SetUseScansInTrellis(o.trellisMultipass)]
    + (match o.chromaSubsample
       case Some(sb) => [SetChromaSamplingPixelSizes((sb, sb), (sb, sb))]
       case None => [])
    + (match o.lumaQtable case Some(t) => [SetLumaQtable(t)] case None => [])
    + (match o.chromaQtable case Some(t) => [SetChromaQtable(t)] case None => [])
  }

  /** Every call of the setup sequence carries what the options and the image say. */
  lemma SetupAgrees(o: MozJpegOptions, width: nat, height: nat, input: ColorSpace)
    ensures var format := ToJcs(input);
      AllCallsAgree(o, width, height, format,
        SetupBeforeColorSpace(o, width, height)
        + [SetColorSpace(OutputColorSpace(format, o.colorSpace))]
        + SetupAfterColorSpace(o))
  {
  }

  /** In the setup sequence the colour space is set before the sampling and the tables. */
  lemma SetupOrdered(o: MozJpegOptions, width: nat, height: nat, out: JColorSpace)
    ensures ColorSpaceSetFirst(SetupBeforeColorSpace(o, width, height) + [SetColorSpace(out)] + SetupAfterColorSpace(o))
  {
  }

  /** The setup sequence keeps every promise of `ConfiguredAsOptionsSay`. */
  lemma SetupComplete(o: MozJpegOptions, width: nat, height: nat, input: ColorSpace)
    ensures var format := ToJcs(input);
      ConfiguredAsOptionsSay(o, width, height, input, format,
        SetupBeforeColorSpace(o, width, height)
        + [SetColorSpace(OutputColorSpace(format, o.colorSpace))]
        + SetupAfterColorSpace(o))
  {
    var format := ToJcs(input);
    var out := OutputColorSpace(format, o.colorSpace);
    var before, after := SetupBeforeColorSpace(o, width, height), SetupAfterColorSpace(o);
    var calls := before + [SetColorSpace(out)] + after;
    SetupAgrees(o, width, height, input);
    SetupOrdered(o, width, height, out);
    ProgressiveOnlyWhenAsked(o, width, height, format, calls);
    assert forall c | c in before :: c in calls;
    assert forall c | c in after :: c in calls;
    assert SetColorSpace(out) in calls by { assert calls[|before|] == SetColorSpace(out); }
  }

  /** A progressive-mode call that agrees with the options was asked for by them. */
  lemma ProgressiveOnlyWhenAsked(o: MozJpegOptions, width: nat, height: nat, format: JColorSpace, calls: seq<CompressCall>)
    requires AllCallsAgree(o, width, height, format, calls)
    ensures SetProgressiveMode in calls ==> o.progressive
  {
  }

  /** The configuration part of `encode_inner`: `Compress::new(format)` followed by the
      setter calls, some of them conditional, in the order the source makes them. */
  method Configure(o: MozJpegOptions, width: nat, height: nat, input: ColorSpace)
    returns (format: JColorSpace, calls: seq<CompressCall>)
    ensures ConfiguredAsOptionsSay(o, width, height, input, format, calls)
  {
    format := ToJcs(input);
    calls := [SetSize(width, height), SetQuality(o.quality)];
    if o.progressive {
      calls := calls + [SetProgressiveMode];
    }
    calls := calls + [SetOptimizeCoding(o.optimizeCoding), SetSmoothingFactor(o.smoothing)];
    assert calls == SetupBeforeColorSpace(o, width, height);
    ghost var before := calls;
    calls := calls + [SetColorSpace(OutputColorSpace(format, o.colorSpace))];
    calls := calls + [SetUseScansInTrellis(o.trellisMultipass)];
    if o.chromaSubsample.Some? {
      var sb := o.chromaSubsample.value;
      calls := calls + [SetChromaSamplingPixelSizes((sb, sb), (sb, sb))];
    }
    if o.lumaQtable.Some? {
      calls := calls + [SetLumaQtable(o.lumaQtable.value)];
    }
    if o.chromaQtable.Some? {
      calls := calls + [SetChromaQtable(o.chromaQtable.value)];
    }
    assert calls == before + [SetColorSpace(OutputColorSpace(format, o.colorSpace))] + SetupAfterColorSpace(o);
    SetupComplete(o, width, height, input);
  }

  /** The payload of a panic caught by `catch_unwind`. */
  datatype PanicPayload = StringPayload(text: string) | OtherPayload

  /** The outcome of a call run under `catch_unwind`: it returned, or it panicked. */
  datatype Caught<T> = Returned(result: Result<T, ImageError>) | Panicked(payload: PanicPayload)

  const UnknownEncodeFailure: string := "Unknown error occurred during encoding"

  /** The `map_err` after `catch_unwind` in `encode_inner`: a returned result passes
      through, a panic becomes an encode error (never a crash) whose text is the
      payload's when the payload is a `String`. */
  function ContainPanic<T>(c: Caught<T>): (r: Result<T, ImageError>)
    ensures c.Returned? ==> r == c.result
    ensures c.Panicked? ==> r.Err? && r.error.EncodeErrors?
    ensures c.Panicked? && c.payload.StringPayload? ==> r.error.cause == Generic(c.payload.text)
    ensures c == Panicked(OtherPayload) ==> r.error.cause == GenericStatic(UnknownEncodeFailure)
  {
    match c
    case Returned(result) => result
    case Panicked(StringPayload(text)) => Err(EncodeErrors(Generic(text)))
    case Panicked(OtherPayload) => Err(EncodeErrors(GenericStatic(UnknownEncodeFailure)))
  }

  /** `encode_inner`: configure the compressor for the image, hand it the flattened
      samples, and contain whatever it does. `compress` stands for the mozjpeg library
      (`Compress::new`, the setters, `start_compress`, `write_scanlines`, `finish`). */
  method EncodeInner(
    e: MozJpegEncoder, image: Image, samples: seq<u8>,
    compress: (JColorSpace, seq<CompressCall>, seq<u8>) -> Caught<seq<u8>>)
    returns (r: Result<seq<u8>, ImageError>, format: JColorSpace, calls: seq<CompressCall>)
    ensures ConfiguredAsOptionsSay(e.options, image.width, image.height, image.colorspace, format, calls)
    ensures r == ContainPanic(compress(format, calls, samples))
    ensures compress(format, calls, samples).Panicked? ==> r.Err? && r.error.EncodeErrors?
  {
    format, calls := Configure(e.options, image.width, image.height, image.colorspace);
    r := ContainPanic(compress(format, calls, samples));
  }

  /** `supported_bit_depth`. */
  function SupportedBitDepths(): (s: seq<BitDepth>)
    ensures Eight in s && Sixteen in s && Float32 !in s && UnknownDepth !in s
  {
    [Eight, Sixteen]
  }

  /** `default_depth`: always a supported depth; a supported depth is kept; floating
      point falls back to sixteen bits rather than eight. */
  function DefaultDepth(d: BitDepth): (r: BitDepth)
    ensures r in SupportedBitDepths()
    ensures d in SupportedBitDepths() ==> r == d
    ensures d == Float32 ==> r == Sixteen
    ensures d == UnknownDepth ==> r == Eight
  {
    match d
    case Sixteen | Float32 => Sixteen
    case _ => Eight
  }
}
