# rimage pipeline core in Dafny

This project models the dispatch and mapping logic of the `rimage` image compressor:

- the command pipeline front end (`src/cli/pipeline.rs`): the `decode` fallback chain, the `operations` builder that keys transform operations by their command-line argument slot, and the `encoder` lookup from subcommand name to encoder and file extension, with the `MozJpegOptions` that the `mozjpeg` subcommand derives from its arguments;
- the MozJpeg encoder adapter (`src/codecs/mozjpeg/encoder/mod.rs`): default options, the canonical-to-libjpeg colour-space map, the output colour-space override for grayscale, CMYK and YCCK inputs, the conditional configuration calls of `encode_inner`, the conversion of a library panic into an error, the supported colour spaces and bit depths, and `default_depth`;
- the jpegli decoder adapter (`src/codecs/jpegli/decoder/mod.rs`): the decoder object with its `inner`, `dimensions` and `colorspace` fields, the test that forces some native colour spaces through YCbCr, and the native-to-canonical colour-space table.

Files:

- `common.dfy` (module `Common`): the canonical colour spaces, libjpeg's colour spaces, bit depths, image formats, the error taxonomy and the decoded image.
- `slot_map.dfy` (module `SlotMap`): the `BTreeMap` filled by successive inserts, as a Dafny `map` and the fold of inserts that builds it.
- `pipeline.dfy` (module `Pipeline`): `decode`, `operations` and `encoder`.
- `mozjpeg_encoder.dfy` (module `MozJpeg`): the MozJpeg adapter.
- `jpegli_decoder.dfy` (module `Jpegli`): the jpegli adapter, with `JpegliDecoder` as a class whose `Decode` method updates its fields.

Everything the core calls but does not define is a parameter: `Image::open` and `fs::read`, `libavif::is_avif` and the AVIF and WebP decoders, `ResizeValue::map_dimensions` and the filter conversion, the mozjpeg compressor (which receives the recorded configuration calls and either returns or panics), and the jpegli library (which opens the bytes and reads the scanlines). The cargo features `avif`, `webp`, `resize` and `quantization` are booleans.

Two points where the model follows the code rather than what it is evidently meant to do:

- The fallback decoders are evidently meant to read the requested file; the code reads the fixed file `tests/files/avif/f1t.avif` (see Findings).
- Successive resizes compose only when the map is applied to the image. When the map is built, every resize entry is computed from the dimensions the image had before the first insert, as `ResizeFillsOtherSlots` states.

## Model

| member | source | states |
|---|---|---|
| SlotMap.Inserted | src/cli/pipeline.rs:81-91 | after successive inserts the keys are the original keys plus every inserted key |
| SlotMap.LastIndex | src/cli/pipeline.rs:109-112 | the position of the last pair with a given key, or -1 exactly when no pair has it |
| SlotMap.InsertedLookup | src/cli/pipeline.rs:109-112 | a later insert at the same key replaces the earlier value: a key holds the value of its last insert, or its original value |
| SlotMap.InsertedSnoc | src/cli/pipeline.rs:77-92 | inserting one more pair extends the fold by one step, which is what each loop iteration does |
| Pipeline.TrimTrailing | src/cli/pipeline.rs:36-38 | a prefix of the path that ends with neither a separator nor a "/." component |
| Pipeline.TrimTrailingDropsOnlyTrailingComponents | src/cli/pipeline.rs:36-38 | everything trimming drops after that prefix is a separator or a "." right after one |
| Pipeline.FileName | src/cli/pipeline.rs:36-38 | `Path::file_name`: when present, the non-empty last component of the trimmed path: its suffix, without separators, preceded by a '/' or by nothing |
| Pipeline.TrailingComponentsIgnored | src/cli/pipeline.rs:36-38 | a trailing "/" or "/." does not change the file name ("photo.webp/." names "photo.webp") |
| Pipeline.Extension | src/cli/pipeline.rs:36-38 | `Path::extension`: present exactly when there is a file name with a dot after its first character, and then the text after its last dot |
| Pipeline.EqIgnoreAsciiCaseIsLoweredEquality | src/cli/pipeline.rs:38 | `eq_ignore_ascii_case` holds exactly when the ASCII-lower-cased strings are equal |
| Pipeline.WebpNamePassesWebpTest | src/cli/pipeline.rs:36-38 | every file named stem + "." + "webp" in any ASCII case, in any directory, passes the WebP test |
| Pipeline.WebpTestNamesWebpFile | src/cli/pipeline.rs:36-38 | conversely, a path passing the WebP test names a file ending with "." and "webp" in some ASCII case after at least one character |
| Pipeline.Fallback | src/cli/pipeline.rs:20-53 | a read error is returned; AVIF is tried first and only on bytes that sniff as AVIF; WebP only when AVIF did not apply and the extension is "webp" in any ASCII case; otherwise not implemented (Unknown) |
| Pipeline.Decode | src/cli/pipeline.rs:17-58 | a primary result other than "decoder not included" is returned unchanged with no fallback; otherwise the fallback runs on the bytes of the fixed fixture path |
| Pipeline.DecodeIgnoresRequestedBytes | src/cli/pipeline.rs:20 | the result of `decode` as written never depends on the bytes of the requested file |
| Pipeline.DecodeRequested | src/cli/pipeline.rs:17-58 | the intended `decode`: the same chain, with the fallback run on the requested file's bytes |
| Pipeline.DecodeRequestedDependsOnRequestedFile | src/cli/pipeline.rs:20 | corrected, two file systems that agree on the requested file give the same result |
| Pipeline.DecodeAgreesOffTheFallback | src/cli/pipeline.rs:18-19 | the written and the intended `decode` agree whenever no fallback is taken or the requested file is the fixture |
| Pipeline.FallbackDecodesFixtureInsteadOfRequestedFile | src/cli/pipeline.rs:20 | on a concrete input the written `decode` decodes the fixture while the intended one reports "not implemented" |
| Pipeline.DitheringOf | src/cli/pipeline.rs:101-111 | dithering is present exactly when the percentage is, and is the percentage divided by 100 |
| Pipeline.ResizePairs | src/cli/pipeline.rs:69-92 | one resize entry per value and index pair, truncated to the shorter list |
| Pipeline.QuantizePairs | src/cli/pipeline.rs:100-113 | one quantize entry per value and index pair, truncated to the shorter list |
| Pipeline.ResizePairsKeys | src/cli/pipeline.rs:74-77 | the resize entries are keyed by exactly the zipped resize slot indices |
| Pipeline.QuantizePairsKeys | src/cli/pipeline.rs:103-106 | the quantize entries are keyed by exactly the zipped quantization slot indices |
| Pipeline.OperationMap | src/cli/pipeline.rs:60-118 | the map `operations` returns: resize entries inserted, then quantize entries over them; its keys are exactly the resize slots plus the quantization slots |
| Pipeline.QuantizeWinsItsSlot | src/cli/pipeline.rs:100-113 | a quantization slot holds the quantize of its last occurrence with the shared dithering, even when a resize claimed the same slot |
| Pipeline.ResizeFillsOtherSlots | src/cli/pipeline.rs:69-92 | a slot only resize claims holds the resize of its last occurrence, computed from the image dimensions captured before the loop, with the one shared filter or the default |
| Pipeline.BuildOperations | src/cli/pipeline.rs:60-118 | the two insert loops produce the specified map, whose keys are the resize slots plus the quantization slots |
| Pipeline.NotFoundMessage | src/cli/pipeline.rs:218-220 | the unknown-encoder error quotes the name it was given |
| Pipeline.JpegOptionsAsWritten | src/cli/pipeline.rs:124-133 | as written, the `jpeg` encoder gets the default options whatever the arguments |
| Pipeline.JpegArgumentsDropped | src/cli/pipeline.rs:124-133 | on a concrete input the written `jpeg` branch keeps the default quality and a baseline encoding while the intended one uses the requested ones |
| Pipeline.JpegOptionsFrom | src/cli/pipeline.rs:124-133 | the intended `jpeg` options: a given quality replaces the default, progressive exactly when the flag is set |
| Pipeline.JpegAsWrittenAgreesOnlyWithDefaults | src/cli/pipeline.rs:124-133 | the written and the intended `jpeg` options agree exactly when the arguments request what the defaults already are |
| Pipeline.ParseQTable | src/cli/pipeline.rs:160-181 | a qtable name is recognised exactly when it is the name of one of the nine families, and maps to that family |
| Pipeline.LumaBase | src/cli/pipeline.rs:160-181 | the luma match picks a table of the named family that is never a chroma variant |
| Pipeline.ChromaBase | src/cli/pipeline.rs:183-209 | the chroma match picks a table of the named family that is never a luma variant |
| Pipeline.SplitFamilies | src/cli/pipeline.rs:160-209 | AnnexK, MSSSIM and PSNRHVS, and only they, give different luma and chroma tables |
| Pipeline.CliColorSpace | src/cli/pipeline.rs:151-156 | ycbcr, rgb and grayscale give JCS_YCbCr, JCS_EXT_RGB and JCS_GRAYSCALE; only grayscale has one component |
| Pipeline.ChromaQuality | src/cli/pipeline.rs:138-141 | the chroma quality is the given one, or the luma quality when absent |
| Pipeline.MozJpegOptionsFrom | src/cli/pipeline.rs:137-210 | flags are negated, smoothing defaults to 0, the colour space maps from its name, and the tables are present as a pair exactly when a family is named, luma scaled by the quality and chroma by the chroma quality |
| Pipeline.ChromaQualityOverride | src/cli/pipeline.rs:138-209 | without a chroma quality both tables share the luma quality; with one, only the chroma table follows it |
| Pipeline.CliDefaultsAreLibraryDefaults | src/cli/pipeline.rs:137-158 | quality 75, "ycbcr" and no other argument give exactly `MozJpegOptions::default()` |
| Pipeline.Encoder | src/cli/pipeline.rs:120-224 | no subcommand is "No encoder used"; a name succeeds exactly when it is one of the seven known ones and then gives the encoder of that name and its extension; any other name is an error quoting it; `jpeg` gets the default options, as written, and `mozjpeg` the options derived from its arguments |
| Pipeline.EncoderRequested | src/cli/pipeline.rs:120-224 | the intended dispatch: the same outcomes and extensions, with the `jpeg` encoder given the requested quality and progressive mode |
| Pipeline.EncoderDiffersOnlyForJpegArguments | src/cli/pipeline.rs:124-133 | the written and the intended dispatch differ exactly for `jpeg` with arguments that ask for something other than the defaults |
| MozJpeg.DefaultOptions | src/codecs/mozjpeg/encoder/mod.rs:25-39 | quality 75, progressive, optimised coding, no smoothing, YCbCr, single-pass trellis, no subsampling and no tables |
| MozJpeg.NewWithOptions | src/codecs/mozjpeg/encoder/mod.rs:55-58 | the options are stored unchanged |
| MozJpeg.New | src/codecs/mozjpeg/encoder/mod.rs:41-53 | `new` is the encoder built from the default options |
| MozJpeg.SupportedColorspaces | src/codecs/mozjpeg/encoder/mod.rs:148-160 | nine distinct spaces, Unknown not among them |
| MozJpeg.ToJcs | src/codecs/mozjpeg/encoder/mod.rs:71-83 | total; JCS_UNKNOWN exactly for the spaces the encoder does not support, and otherwise a libjpeg space with the same number of components |
| MozJpeg.ToJcsInjectiveOnSupported | src/codecs/mozjpeg/encoder/mod.rs:71-83 | distinct supported spaces map to distinct libjpeg spaces |
| MozJpeg.OutputColorSpace | src/codecs/mozjpeg/encoder/mod.rs:96-114 | grayscale, CMYK and YCCK inputs keep their space; every other input gets the requested one |
| MozJpeg.OutputOverrideByCanonicalSpace | src/codecs/mozjpeg/encoder/mod.rs:96-114 | Luma, CMYK and YCCK images are never converted, whatever the options request; every other image gets the requested space |
| MozJpeg.SetupAgrees | src/codecs/mozjpeg/encoder/mod.rs:87-127 | every configuration call carries what the options and the image say |
| MozJpeg.SetupOrdered | src/codecs/mozjpeg/encoder/mod.rs:96-127 | the colour space is set before the chroma sampling and the tables |
| MozJpeg.SetupComplete | src/codecs/mozjpeg/encoder/mod.rs:85-127 | the call sequence meets every configuration promise of `encode_inner` |
| MozJpeg.ProgressiveOnlyWhenAsked | src/codecs/mozjpeg/encoder/mod.rs:90-92 | progressive mode is switched on only when the options ask for it |
| MozJpeg.Configure | src/codecs/mozjpeg/encoder/mod.rs:71-127 | the compressor gets the mapped input space; unconditional setters are all made; progressive mode, subsampling `(sb, sb)` for both chroma components and each table are applied exactly when asked; the colour space comes before sampling and tables |
| MozJpeg.ContainPanic | src/codecs/mozjpeg/encoder/mod.rs:135-145 | a returned result passes through; a `String` panic becomes a generic encode error with its text, any other panic the fixed "Unknown error occurred during encoding" |
| MozJpeg.EncodeInner | src/codecs/mozjpeg/encoder/mod.rs:66-146 | configures the compressor as the options say and turns any panic of the library into an encode error |
| MozJpeg.SupportedBitDepths | src/codecs/mozjpeg/encoder/mod.rs:166-168 | eight and sixteen bits, not floating point |
| MozJpeg.DefaultDepth | src/codecs/mozjpeg/encoder/mod.rs:170-175 | always a supported depth; a supported depth is kept; Float32 becomes Sixteen and anything else Eight |
| Jpegli.ToCanonical | src/codecs/jpegli/decoder/mod.rs:55-73 | total; Unknown exactly for the transformed spaces and JCS_UNKNOWN; every other space keeps its number of components |
| Jpegli.TransformedExactlyWhereNoCanonicalSpace | src/codecs/jpegli/decoder/mod.rs:37-43 | `should_transform_color_space` holds exactly for the known libjpeg spaces without a canonical counterpart |
| Jpegli.RequestedOutput | src/codecs/jpegli/decoder/mod.rs:37-51 | YCbCr is requested exactly for XBGR, XRGB, ABGR and RGB565, raw output otherwise, and what is requested has a canonical counterpart |
| Jpegli.DecodeImage | src/codecs/jpegli/decoder/mod.rs:35-78 | every library error becomes "error with jpegli"; on success the image has jpegli's dimensions, the buffer `finish_into_inner` returns, and the canonical counterpart of its colour space |
| Jpegli.DecodedSpaceKnownUnlessDeclaredUnknown | src/codecs/jpegli/decoder/mod.rs:37-73 | if jpegli delivers what is asked, a decoded image is Unknown only when the file declares JCS_UNKNOWN |
| Jpegli.JpegliDecoder.constructor | src/codecs/jpegli/decoder/mod.rs:20-25 | holds the bytes, with no dimensions and no colour space |
| Jpegli.JpegliDecoder.TryNew | src/codecs/jpegli/decoder/mod.rs:16-26 | a read error becomes an I/O error; otherwise a fresh decoder holds every byte read and knows neither dimensions nor colour space |
| Jpegli.JpegliDecoder.Dimensions | src/codecs/jpegli/decoder/mod.rs:85-87 | the stored dimensions, known exactly when the colour space is |
| Jpegli.JpegliDecoder.OutColorspace | src/codecs/jpegli/decoder/mod.rs:89-91 | unwraps the stored colour space, so it requires one; then the dimensions are known too and the space is one the jpegli table produces |
| Jpegli.JpegliDecoder.Decode | src/codecs/jpegli/decoder/mod.rs:34-91 | on success both fields are set to the image's dimensions and colour space, as `dimensions()` and `out_colorspace()` then report; on an error neither changes; the bytes never change |

## Left out

- File and stream I/O (`Image::open`, `fs::read`, `read_to_end`): their outcomes are parameters.
- The codec libraries (mozjpeg `Compress`, jpegli `Decompress`, `libavif::is_avif`, the AVIF and WebP decoders, the `Resize` and `Quantize` operations, `ResizeValue::map_dimensions`): they are parameters or opaque values.
- The coefficients of `QTable::scaled`: a scaled table records only its base table and its two quality arguments.
- `f32` rounding: qualities and the dithering fraction are exact reals.
- Logging (`log::trace!`, `log::warn!`) and the `name()` and `format()` accessors, which only return constants.
- The settings of the zune `jpeg` encoder other than quality and progressive mode, and the `farbfeld`, `jpeg_xl`, `png`, `ppm` and `qoi` encoders, which carry no options.
- Jpegli.DecodeImage: a panic inside jpegli is re-raised by `unwrap` after `catch_unwind`; the model has no panics, so the library either succeeds or fails with an error.
- Pipeline.Extension: paths are strings with '/' as the only separator, as on Unix; the Windows separators and prefixes of `Path` are not modelled.
- Pipeline.Encoder: the panics of the `mozjpeg` branch are preconditions rather than behaviour: `unwrap()` on `quality` and `colorspace` and the `unreachable!()` arms for an unknown colour space or table name become `MozJpegArgsReady` and the requires of `CliColorSpace`; `indices_of(..).unwrap()` becomes an index list that is always present next to the values.
- MozJpeg.EncodeInner: `flatten_to_u8` is not modelled; the flattened samples are a parameter.
- `ColorSpace` variants of zune_core that the core never names are represented by the single `LumaA` variant, which only reaches the wildcard arms.

## Findings

| source | as written | input that shows it | evidently intended | confidence | as-written member | corrected member |
|---|---|---|---|---|---|---|
| src/cli/pipeline.rs:20 | the fallback decoders read the fixed file `tests/files/avif/f1t.avif`, not the requested file | "photo.avif" whose primary decoder is not included, whose bytes are not AVIF, with a fixture that is AVIF: the fixture is decoded and returned | the fallback reads the requested file | high, not executed | Pipeline.Decode, Pipeline.FallbackDecodesFixtureInsteadOfRequestedFile | Pipeline.DecodeRequested |
| src/cli/pipeline.rs:125-131 | `options` is an immutable binding, and the copies returned by `set_quality` and `set_jpeg_encode_progressive` are dropped, so the `jpeg` encoder always gets the default options | `jpeg` with quality 40 and `progressive`: the encoder gets the default quality and a baseline encoding | the requested quality and progressive mode reach the encoder | medium (rests on zune_core's `EncoderOptions` setters returning an updated copy), not executed | Pipeline.Encoder, Pipeline.JpegOptionsAsWritten, Pipeline.JpegArgumentsDropped | Pipeline.EncoderRequested, Pipeline.JpegOptionsFrom |
