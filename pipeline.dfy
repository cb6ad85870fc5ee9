/** The command pipeline front end (src/cli/pipeline.rs): the decode fallback chain,
    the builder of the slot-indexed operation map, and the encoder chosen by the
    subcommand name, with the MozJpeg options derived from its arguments.

    Everything the front end calls but does not define is a parameter: `Image::open`
    and `fs::read` (a `FileSystem`), the AVIF sniffer and the AVIF and WebP decoders
    (`Fallbacks`), `ResizeValue::map_dimensions` and the filter conversion
    (`ResizeSupport`). The clap `ArgMatches` become plain records of optional values and
    of (values, indices) occurrence lists; the cargo features become booleans. */
module Pipeline {
  import opened Common
  import opened SlotMap
  import MozJpeg

  // ---------------------------------------------------------------------------
  // Paths: `Path::extension` and `eq_ignore_ascii_case`
  // ---------------------------------------------------------------------------

  /** `p` without what `Path` ignores at its end: separators and "." components
      ("a/b/", "a/b/." and "a/b/./" all end with the component "b"). */
  function TrimTrailing(p: string): (r: string)
    ensures |r| <= |p| && r == p[..|r|]
    ensures r == [] || r[|r| - 1] != '/'
    ensures !(|r| >= 2 && r[|r| - 2] == '/' && r[|r| - 1] == '.')
    decreases |p|
  {
    if p != [] && p[|p| - 1] == '/' then TrimTrailing(p[..|p| - 1])
    else if |p| >= 2 && p[|p| - 2] == '/' && p[|p| - 1] == '.' then TrimTrailing(p[..|p| - 1])
    else p
  }

  /** A trailing separator or "." component does not change the file name:
      "photo.webp/" and "photo.webp/." both name "photo.webp". */
  /** Trimming drops nothing but separators and "." characters that follow one. */
  lemma {:induction false} TrimTrailingDropsOnlyTrailingComponents(p: string)
    ensures forall k | |TrimTrailing(p)| <= k < |p| :: p[k] == '/' || (0 < k && p[k] == '.' && p[k - 1] == '/')
    decreases |p|
  {
    if p != [] && (p[|p| - 1] == '/' || (|p| >= 2 && p[|p| - 2] == '/' && p[|p| - 1] == '.')) {
      var q := p[..|p| - 1];
      TrimTrailingDropsOnlyTrailingComponents(q);
      assert forall k | 0 <= k < |q| :: q[k] == p[k];
    }
  }

  lemma TrailingComponentsIgnored(p: string)
    ensures FileName(p + "/") == FileName(p)
    ensures FileName(p + "/.") == FileName(p)
  {
    TrimTrailingSeparator(p);
    TrimTrailingCurDir(p);
  }

  /** Trimming ignores one more trailing separator. */
  lemma TrimTrailingSeparator(p: string)
    ensures TrimTrailing(p + "/") == TrimTrailing(p)
  {
    var q := p + "/";
    assert q[..|q| - 1] == p;
  }

  /** Trimming ignores a trailing "." component. */
  lemma TrimTrailingCurDir(p: string)
    ensures TrimTrailing(p + "/.") == TrimTrailing(p + "/")
  {
    var q := p + "/.";
    assert q[|q| - 2] == '/' && q[|q| - 1] == '.';
    assert q[..|q| - 1] == p + "/";
  }

  /** The position of the last `c` in `s`, or -1. */
  function LastIndexOf(s: string, c: char): (i: int)
    ensures -1 <= i < |s|
    ensures 0 <= i ==> s[i] == c
    ensures forall k | i < k < |s| :: s[k] != c
    decreases |s|
  {
    if s == [] then -1
    else if s[|s| - 1] == c then |s| - 1
    else LastIndexOf(s[..|s| - 1], c)
  }

  /** The text after the last '/' of `p` (all of `p` when it has none). */
  function LastSegment(p: string): (s: string)
    ensures forall k | 0 <= k < |s| :: s[k] != '/'
    ensures |s| <= |p| && s == p[|p| - |s|..]
    ensures |s| < |p| ==> p[|p| - |s| - 1] == '/'
  {
    p[LastIndexOf(p, '/') + 1..]
  }

  /** `Path::file_name` for '/'-separated paths: the last component once trailing
      separators and "." components are ignored; none when that component is empty,
      "." or "..". */
  function FileName(path: string): (r: Option<string>)
    ensures r.Some? ==> r.value != [] && forall k | 0 <= k < |r.value| :: r.value[k] != '/'
    ensures r.Some? ==>
      var t := TrimTrailing(path);
      |r.value| <= |t| && t[|t| - |r.value|..] == r.value && (|r.value| < |t| ==> t[|t| - |r.value| - 1] == '/')
  {
    var seg := LastSegment(TrimTrailing(path));
    if seg == [] || IsDotComponent(seg) then None else Some(seg)
  }

  /** The components "." and "..". */
  predicate IsDotComponent(s: string)
  {
    (|s| == 1 || |s| == 2) && forall k | 0 <= k < |s| :: s[k] == '.'
  }

  /** The extension of a file name: the text after its last '.', provided that dot is
      not the name's first character (".webp" has no extension). */
  function NameExtension(n: string): (r: Option<string>)
    ensures r.Some? ==> forall k | 0 <= k < |r.value| :: r.value[k] != '.'
    ensures r.Some? ==>
      |r.value| + 1 < |n| && n[|n| - |r.value| - 1] == '.' && n[|n| - |r.value|..] == r.value
    ensures r.None? ==> forall k | 1 <= k < |n| :: n[k] != '.'
  {
    var i := LastIndexOf(n, '.');
    if i <= 0 then None else Some(n[i + 1..])
  }

  /** `Path::extension`: the extension of the file name, if there is a file name. */
  function Extension(path: string): (r: Option<string>)
    ensures r.Some? <==> FileName(path).Some? && NameExtension(FileName(path).value).Some?
    ensures r.Some? ==> r == NameExtension(FileName(path).value)
  {
    match FileName(path)
    case None => None
    case Some(n) => NameExtension(n)
  }

  function AsciiLower(c: char): char
  {
    if 'A' <= c <= 'Z' then (c as int + 32) as char else c
  }

  /** `eq_ignore_ascii_case`: equal lengths, and equal characters once ASCII upper
      case is folded to lower case. */
  predicate EqIgnoreAsciiCase(a: string, b: string)
  {
    |a| == |b| && forall i | 0 <= i < |a| :: AsciiLower(a[i]) == AsciiLower(b[i])
  }

  /** `s` with ASCII upper case folded to lower case. */
  function AsciiLowered(s: string): (r: string)
    ensures |r| == |s| && forall i | 0 <= i < |s| :: r[i] == AsciiLower(s[i])
  {
    seq(|s|, i requires 0 <= i < |s| => AsciiLower(s[i]))
  }

  /** Comparing ignoring ASCII case is comparing the lower-cased strings. */
  lemma EqIgnoreAsciiCaseIsLoweredEquality(a: string, b: string)
    ensures EqIgnoreAsciiCase(a, b) <==> AsciiLowered(a) == AsciiLowered(b)
  {
    if AsciiLowered(a) == AsciiLowered(b) {
      assert forall i | 0 <= i < |a| :: AsciiLower(a[i]) == AsciiLowered(a)[i] == AsciiLowered(b)[i] == AsciiLower(b[i]);
    }
  }

  /** The WebP test of `decode`: the path has an extension equal to "webp" in any
      ASCII case. */
  predicate HasWebpExtension(path: string)
  {
    Extension(path).Some? && EqIgnoreAsciiCase(Extension(path).value, "webp")
  }

  /** The last `c` of `prefix + [c] + suffix` is the one between them when `suffix`
      has none. */
  lemma {:induction false} LastIndexBeforeSuffix(prefix: string, c: char, suffix: string)
    requires forall k | 0 <= k < |suffix| :: suffix[k] != c
    ensures LastIndexOf(prefix + [c] + suffix, c) == |prefix|
    decreases |suffix|
  {
    if suffix != [] {
      var init := suffix[..|suffix| - 1];
      assert (prefix + [c] + suffix)[..|prefix + [c] + suffix| - 1] == prefix + [c] + init;
      LastIndexBeforeSuffix(prefix, c, init);
    }
  }

  /** A name without '/' in a directory (empty, or ending with '/') is the file name of
      the path, unless it is empty, "." or "..". */
  lemma FileNameInDirectory(dir: string, name: string)
    requires dir == [] || dir[|dir| - 1] == '/'
    requires name != [] && name[|name| - 1] != '/' && name[|name| - 1] != '.'
    requires forall k | 0 <= k < |name| :: name[k] != '/'
    ensures FileName(dir + name) == Some(name)
  {
    var path := dir + name;
    TrimTrailingKeepsPlainEnd(path);
    LastSegmentInDirectory(dir, name);
    assert !IsDotComponent(name) by {
      assert name[|name| - 1] != '.';
    }
    assert LastSegment(TrimTrailing(path)) == name;
  }

  /** A path that ends with neither a separator nor a '.' is left as it is. */
  lemma TrimTrailingKeepsPlainEnd(p: string)
    requires p != [] && p[|p| - 1] != '/' && p[|p| - 1] != '.'
    ensures TrimTrailing(p) == p
  {
  }

  /** The last segment of a name without '/' in a directory is the name. */
  lemma LastSegmentInDirectory(dir: string, name: string)
    requires dir == [] || dir[|dir| - 1] == '/'
    requires forall k | 0 <= k < |name| :: name[k] != '/'
    ensures LastSegment(dir + name) == name
  {
    var path := dir + name;
    if dir == [] {
      assert path == name;
    } else {
      var d := dir[..|dir| - 1];
      assert path == d + ['/'] + name;
      LastIndexBeforeSuffix(d, '/', name);
    }
  }


  /** A non-empty stem, a dot and a suffix without dots: the suffix is the extension. */
  lemma ExtensionAfterStem(stem: string, ext: string)
    requires stem != []
    requires forall k | 0 <= k < |ext| :: ext[k] != '.'
    ensures NameExtension(stem + "." + ext) == Some(ext)
  {
    LastIndexBeforeSuffix(stem, '.', ext);
    assert (stem + "." + ext)[|stem| + 1..] == ext;
  }

  /** A stem, a dot and a suffix, none of them with a '/', in a directory: the whole
      name is the file name. */
  lemma DottedNameInDirectory(dir: string, stem: string, ext: string)
    requires dir == [] || dir[|dir| - 1] == '/'
    requires stem != [] && forall k | 0 <= k < |stem| :: stem[k] != '/'
    requires ext != [] && forall k | 0 <= k < |ext| :: ext[k] != '/' && ext[k] != '.'
    ensures FileName(dir + (stem + "." + ext)) == Some(stem + "." + ext)
  {
    var name := stem + "." + ext;
    forall k | 0 <= k < |name| ensures name[k] != '/' {
      if k > |stem| { assert name[k] == ext[k - |stem| - 1]; }
    }
    assert name[|name| - 1] == ext[|ext| - 1];
    FileNameInDirectory(dir, name);
  }

  /** The WebP test passes when the file name's extension is "webp" in some ASCII case. */
  lemma WebpTestFromFileName(path: string, name: string, ext: string)
    requires FileName(path) == Some(name)
    requires NameExtension(name) == Some(ext)
    requires EqIgnoreAsciiCase(ext, "webp")
    ensures HasWebpExtension(path)
  {
  }

  /** A file in any directory whose name is a non-empty stem, a dot and "webp" in any
      ASCII case passes the WebP test. */
  lemma WebpNamePassesWebpTest(dir: string, stem: string, ext: string)
    requires dir == [] || dir[|dir| - 1] == '/'
    requires stem != [] && forall k | 0 <= k < |stem| :: stem[k] != '/'
    requires forall k | 0 <= k < |ext| :: ext[k] != '/' && ext[k] != '.'
    requires EqIgnoreAsciiCase(ext, "webp")
    ensures HasWebpExtension(dir + (stem + "." + ext))
  {
    DottedNameInDirectory(dir, stem, ext);
    ExtensionAfterStem(stem, ext);
    WebpTestFromFileName(dir + (stem + "." + ext), stem + "." + ext, ext);
  }

  /** Conversely, a path passing the WebP test names a file whose name ends with a dot
      and "webp" in some ASCII case, after at least one other character. */
  lemma WebpTestNamesWebpFile(path: string)
    requires HasWebpExtension(path)
    ensures FileName(path).Some?
    ensures var n := FileName(path).value;
      |n| >= 6 && n[|n| - 5] == '.' && EqIgnoreAsciiCase(n[|n| - 4..], "webp")
  {
  }

  // ---------------------------------------------------------------------------
  // decode
  // ---------------------------------------------------------------------------

  /** The file the fallback branch of `decode` reads, whatever file was requested. */
  const FixturePath: string := "tests/files/avif/f1t.avif"

  /** `Image::open` (the primary, content-sniffing decoder) and `fs::read`. */
  datatype FileSystem = FileSystem(
    open: string -> Result<Image, ImageError>,
    read: string -> Result<seq<u8>, ImageError>)

  /** The specialised decoders behind the cargo features `avif` and `webp`;
      `isAvif` is `libavif::is_avif`, and each decoder covers `try_new` and `decode`. */
  datatype Fallbacks = Fallbacks(
    avifEnabled: bool,
    isAvif: seq<u8> -> bool,
    decodeAvif: seq<u8> -> Result<Image, ImageError>,
    webpEnabled: bool,
    decodeWebp: seq<u8> -> Result<Image, ImageError>)

  /** The primary decoder declined because no decoder for the format is compiled in. */
  predicate Declined(primary: Result<Image, ImageError>)
  {
    primary.Err? && primary.error.ImageDecoderNotIncluded?
  }

  predicate AvifApplies(fb: Fallbacks, bytes: seq<u8>)
  {
    fb.avifEnabled && fb.isAvif(bytes)
  }

  predicate WebpApplies(fb: Fallbacks, path: string)
  {
    fb.webpEnabled && HasWebpExtension(path)
  }

  /** The fallback branch: a read error is returned; AVIF is tried first, and only on
      bytes that sniff as AVIF; WebP second, and only for a ".webp" path; the first
      decoder tried has the last word; when none applies the format is reported as
      not implemented. */
  function Fallback(path: string, bytes: Result<seq<u8>, ImageError>, fb: Fallbacks): (r: Result<Image, ImageError>)
    ensures bytes.Err? ==> r == Err(bytes.error)
    ensures bytes.Ok? && AvifApplies(fb, bytes.value) ==> r == fb.decodeAvif(bytes.value)
    ensures bytes.Ok? && !AvifApplies(fb, bytes.value) && WebpApplies(fb, path) ==>
      r == fb.decodeWebp(bytes.value)
    ensures bytes.Ok? && !AvifApplies(fb, bytes.value) && !WebpApplies(fb, path) ==>
      r == Err(ImageDecoderNotImplemented(UnknownFormat))
  {
    match bytes
    case Err(e) => Err(e)
    case Ok(content) =>
      if AvifApplies(fb, content) then fb.decodeAvif(content)
      else if WebpApplies(fb, path) then fb.decodeWebp(content)
      else Err(ImageDecoderNotImplemented(UnknownFormat))
  }

  /** `decode` as written: a primary result other than "decoder not included" is
      returned unchanged, with no fallback; otherwise the fallback runs on the bytes of
      the fixed file `FixturePath`, while the WebP test looks at the requested path. */
  function Decode(f: string, fs: FileSystem, fb: Fallbacks): (r: Result<Image, ImageError>)
    ensures !Declined(fs.open(f)) ==> r == fs.open(f)
    ensures Declined(fs.open(f)) ==> r == Fallback(f, fs.read(FixturePath), fb)
  {
    match fs.open(f)
    case Ok(image) => Ok(image)
    case Err(e) =>
      if e.ImageDecoderNotIncluded? then Fallback(f, fs.read(FixturePath), fb) else Err(e)
  }

  /** As written, the result does not depend on the bytes of the requested file: two
      file systems that agree on the primary decode of `f` and on the fixture decode
      `f` alike. */
  lemma DecodeIgnoresRequestedBytes(f: string, fs1: FileSystem, fs2: FileSystem, fb: Fallbacks)
    requires fs1.open(f) == fs2.open(f)
    requires fs1.read(FixturePath) == fs2.read(FixturePath)
    ensures Decode(f, fs1, fb) == Decode(f, fs2, fb)
  {
  }

  /** `decode` as evidently intended: the fallback decoders read the requested file. */
  function DecodeRequested(f: string, fs: FileSystem, fb: Fallbacks): (r: Result<Image, ImageError>)
    ensures !Declined(fs.open(f)) ==> r == fs.open(f)
    ensures Declined(fs.open(f)) ==> r == Fallback(f, fs.read(f), fb)
  {
    match fs.open(f)
    case Ok(image) => Ok(image)
    case Err(e) =>
      if e.ImageDecoderNotIncluded? then Fallback(f, fs.read(f), fb) else Err(e)
  }

  /** Corrected, the fallback sees the requested file and nothing else: two file systems
      that agree on `f` (its primary decode and its bytes) decode it alike, whatever the
      fixture holds. */
  lemma DecodeRequestedDependsOnRequestedFile(f: string, fs1: FileSystem, fs2: FileSystem, fb: Fallbacks)
    requires fs1.open(f) == fs2.open(f) && fs1.read(f) == fs2.read(f)
    ensures DecodeRequested(f, fs1, fb) == DecodeRequested(f, fs2, fb)
  {
  }

  /** The two agree whenever the fallback is not needed, or the requested file is the
      fixture itself. */
  lemma DecodeAgreesOffTheFallback(f: string, fs: FileSystem, fb: Fallbacks)
    requires !Declined(fs.open(f)) || f == FixturePath
    ensures Decode(f, fs, fb) == DecodeRequested(f, fs, fb)
  {
  }

  /** The discrepancy on a concrete input: the primary decoder declines a requested file
      "photo.avif" whose bytes [1] are not AVIF, while the fixture's bytes [2] are; the
      code decodes the fixture and succeeds, the intended behaviour reports the format
      as not implemented. */
  lemma FallbackDecodesFixtureInsteadOfRequestedFile()
    ensures
      var f := "photo.avif";
      var fs := FileSystem(
        p => Err(ImageDecoderNotIncluded(AVIF)),
        p => if p == f then Ok([1]) else Ok([2]));
      var fb := Fallbacks(true, b => b == [2], b => Ok(Image(1, 1, RGB, b)), false, b => Err(ImageDecodeErrors("webp")));
      Decode(f, fs, fb) == Ok(Image(1, 1, RGB, [2])) &&
      DecodeRequested(f, fs, fb) == Err(ImageDecoderNotImplemented(UnknownFormat))
  {
    var f := "photo.avif";
    assert f != FixturePath;
  }

  // ---------------------------------------------------------------------------
  // operations
  // ---------------------------------------------------------------------------

  /** The occurrences of one repeatable flag: its values (`get_many`) and their argument
      slot indices (`indices_of`), paired positionally by `zip`. */
  datatype Occurrences<T> = Occurrences(values: seq<T>, indices: seq<nat>)
  {
    /** `zip` stops at the shorter list. */
    function Paired(): nat
    {
      if |values| <= |indices| then |values| else |indices|
    }

    function Slots(): set<nat>
    {
      set i | 0 <= i < Paired() :: indices[i]
    }
  }

  /** The operation arguments of the command line: `resize` (with `filter`) and
      `quantization` (with `dithering`). */
  datatype OperationArgs<V, F> = OperationArgs(
    resize: Option<Occurrences<V>>,
    filter: Option<F>,
    quantization: Option<Occurrences<u8>>,
    dithering: Option<u8>)

  /** The cargo features `resize` and `quantization`. */
  datatype OperationFeatures = OperationFeatures(resize: bool, quantization: bool)

  /** `ResizeValue::map_dimensions`, the `ResizeFilter` to `ResizeAlg` conversion, and
      `ResizeAlg::default()`. */
  datatype ResizeSupport<!V, !F, A> = ResizeSupport(
    mapDimensions: (V, nat, nat) -> (nat, nat),
    algOf: F -> A,
    defaultAlg: A)

  /** The operations the map holds; the dithering strength is the exact quotient of the
      percentage by 100 (the source's `f32`). */
  datatype Operation<A> = Resize(width: nat, height: nat, alg: A) | Quantize(colors: u8, dithering: Option<real>)

  /** `filter.copied().map(Into::into).unwrap_or_default()`. */
  function ResizeAlgOf<V, F, A>(filter: Option<F>, rs: ResizeSupport<V, F, A>): A
  {
    match filter
    case Some(f) => rs.algOf(f)
    case None => rs.defaultAlg
  }

  /** `dithering.map(|q| q / 100)`: present exactly when the percentage is, and a
      fraction in [0, 2.55]. */
  function DitheringOf(percent: Option<u8>): (d: Option<real>)
    ensures d.Some? <==> percent.Some?
    ensures d.Some? ==> d.value * 100.0 == percent.value as real && 0.0 <= d.value <= 2.55
  {
    match percent
    case Some(q) => Some(q as real / 100.0)
    case None => None
  }

  predicate ResizeRequested<V, F>(args: OperationArgs<V, F>, features: OperationFeatures)
  {
    features.resize && args.resize.Some?
  }

  predicate QuantizeRequested<V, F>(args: OperationArgs<V, F>, features: OperationFeatures)
  {
    features.quantization && args.quantization.Some?
  }

  /** The resize entries, in insertion order: every one computed from the image's
      dimensions as they were before the first insert, with the one shared filter. */
  function ResizePairs<V, F, A>(args: OperationArgs<V, F>, features: OperationFeatures, img: Image, rs: ResizeSupport<V, F, A>)
    : (ps: seq<(nat, Operation<A>)>)
    ensures |ps| == (if ResizeRequested(args, features) then args.resize.value.Paired() else 0)
  {
    if !ResizeRequested(args, features) then []
    else
      var occ := args.resize.value;
      seq(occ.Paired(), i requires 0 <= i < occ.Paired() =>
        var dims := rs.mapDimensions(occ.values[i], img.width, img.height);
        (occ.indices[i], Resize(dims.0, dims.1, ResizeAlgOf(args.filter, rs))))
  }

  /** The quantize entries, in insertion order: each occurrence's value unchanged, all
      with the same dithering. */
  function QuantizePairs<V, F, A>(args: OperationArgs<V, F>, features: OperationFeatures)
    : (ps: seq<(nat, Operation<A>)>)
    ensures |ps| == (if QuantizeRequested(args, features) then args.quantization.value.Paired() else 0)
  {
    if !QuantizeRequested(args, features) then []
    else
      var occ := args.quantization.value;
      seq(occ.Paired(), i requires 0 <= i < occ.Paired() =>
        (occ.indices[i], Quantize(occ.values[i], DitheringOf(args.dithering))))
  }

  function ResizeSlots<V, F>(args: OperationArgs<V, F>, features: OperationFeatures): set<nat>
  {
    if ResizeRequested(args, features) then args.resize.value.Slots() else {}
  }

  function QuantizeSlots<V, F>(args: OperationArgs<V, F>, features: OperationFeatures): set<nat>
  {
    if QuantizeRequested(args, features) then args.quantization.value.Slots() else {}
  }

  /** The map `operations` returns: the resize entries inserted into an empty map, then
      the quantize entries inserted over them. */
  function OperationMap<V, F, A>(args: OperationArgs<V, F>, features: OperationFeatures, img: Image, rs: ResizeSupport<V, F, A>)
    : (m: map<nat, Operation<A>>)
    ensures m.Keys == ResizeSlots(args, features) + QuantizeSlots(args, features)
  {
    ResizePairsKeys(args, features, img, rs);
    QuantizePairsKeys<V, F, A>(args, features);
    Inserted(Inserted(map[], ResizePairs(args, features, img, rs)), QuantizePairs(args, features))
  }

  lemma ResizePairsKeys<V, F, A>(args: OperationArgs<V, F>, features: OperationFeatures, img: Image, rs: ResizeSupport<V, F, A>)
    ensures KeysOf(ResizePairs(args, features, img, rs)) == ResizeSlots(args, features)
  {
    var ps := ResizePairs(args, features, img, rs);
    if ResizeRequested(args, features) {
      assert forall i | 0 <= i < |ps| :: ps[i].0 == args.resize.value.indices[i];
    }
  }

  lemma QuantizePairsKeys<V, F, A>(args: OperationArgs<V, F>, features: OperationFeatures)
    ensures KeysOf(QuantizePairs<V, F, A>(args, features)) == QuantizeSlots(args, features)
  {
    var ps := QuantizePairs<V, F, A>(args, features);
    if QuantizeRequested(args, features) {
      assert forall i | 0 <= i < |ps| :: ps[i].0 == args.quantization.value.indices[i];
    }
  }

  /** A quantization slot holds a quantize operation, even when a resize claimed the
      same slot: the value of the last quantization occurrence paired with that slot,
      with the shared dithering. */
  lemma QuantizeWinsItsSlot<V, F, A>(args: OperationArgs<V, F>, features: OperationFeatures, img: Image, rs: ResizeSupport<V, F, A>, k: nat)
    requires k in QuantizeSlots(args, features)
    ensures k in OperationMap(args, features, img, rs)
    ensures
      var occ := args.quantization.value;
      var j := LastIndex(QuantizePairs<V, F, A>(args, features), k);
      0 <= j < occ.Paired() && occ.indices[j] == k &&
      OperationMap(args, features, img, rs)[k] == Quantize(occ.values[j], DitheringOf(args.dithering))
  {
    QuantizePairsKeys<V, F, A>(args, features);
    InsertedLookup(Inserted(map[], ResizePairs(args, features, img, rs)), QuantizePairs<V, F, A>(args, features), k);
  }

  /** A slot that only resize claims holds the resize of its last occurrence, computed
      from the dimensions the image had before the map was built (resizes are not
      chained), with the shared filter. */
  lemma ResizeFillsOtherSlots<V, F, A>(args: OperationArgs<V, F>, features: OperationFeatures, img: Image, rs: ResizeSupport<V, F, A>, k: nat)
    requires k in ResizeSlots(args, features) && k !in QuantizeSlots(args, features)
    ensures k in OperationMap(args, features, img, rs)
    ensures
      var occ := args.resize.value;
      var j := LastIndex(ResizePairs(args, features, img, rs), k);
      var dims := rs.mapDimensions(occ.values[j], img.width, img.height);
      0 <= j < occ.Paired() && occ.indices[j] == k &&
      OperationMap(args, features, img, rs)[k] == Resize(dims.0, dims.1, ResizeAlgOf(args.filter, rs))
  {
    ResizePairsKeys(args, features, img, rs);
    QuantizePairsKeys<V, F, A>(args, features);
    var resized := Inserted(map[], ResizePairs(args, features, img, rs));
    InsertedLookup(map[], ResizePairs(args, features, img, rs), k);
    assert k !in KeysOf(QuantizePairs<V, F, A>(args, features));
    InsertedLookup(resized, QuantizePairs<V, F, A>(args, features), k);
  }

  /** `operations`: a mutable map filled by two loops, resizes first, then
      quantizations, each inserting at the occurrence's slot index. */
  method BuildOperations<V, F, A>(args: OperationArgs<V, F>, img: Image, features: OperationFeatures, rs: ResizeSupport<V, F, A>)
    returns (ops: map<nat, Operation<A>>)
    ensures ops == OperationMap(args, features, img, rs)
    ensures ops.Keys == ResizeSlots(args, features) + QuantizeSlots(args, features)
  {
    ops := map[];
    if features.resize && args.resize.Some? {
      var occ := args.resize.value;
      var (w, h) := img.Dimensions();
      ghost var pairs := ResizePairs(args, features, img, rs);
      var i := 0;
      while i < |occ.values| && i < |occ.indices|
        invariant 0 <= i <= occ.Paired()
        invariant ops == Inserted(map[], pairs[..i])
      {
        var dims := rs.mapDimensions(occ.values[i], w, h);
        InsertedSnoc(map[], pairs, i);
        ops := ops[occ.indices[i] := Resize(dims.0, dims.1, ResizeAlgOf(args.filter, rs))];
        i := i + 1;
      }
      assert pairs[..i] == pairs;
    }
    ghost var resized := ops;
    if features.quantization && args.quantization.Some? {
      var occ := args.quantization.value;
      ghost var pairs := QuantizePairs<V, F, A>(args, features);
      var i := 0;
      while i < |occ.values| && i < |occ.indices|
        invariant 0 <= i <= occ.Paired()
        invariant ops == Inserted(resized, pairs[..i])
      {
        InsertedSnoc(resized, pairs, i);
        ops := ops[occ.indices[i] := Quantize(occ.values[i], DitheringOf(args.dithering))];
        i := i + 1;
      }
      assert pairs[..i] == pairs;
    }
  }

  // ---------------------------------------------------------------------------
  // encoder
  // ---------------------------------------------------------------------------

  /** The arguments an encoder subcommand may carry (its own `ArgMatches`). */
  datatype EncoderArgs = EncoderArgs(
    quality: Option<u8>,
    chromaQuality: Option<u8>,
    progressive: bool,
    baseline: bool,
    noOptimizeCoding: bool,
    smoothing: Option<u8>,
    colorspace: Option<string>,
    multipass: bool,
    subsample: Option<u8>,
    qtable: Option<string>)

  datatype Subcommand = Subcommand(name: string, args: EncoderArgs)

  /** The encoders `encoder` can return, with the options of the two that take any. */
  datatype EncoderKind =
    | FarbFeldEncoder
    | JpegWith(options: JpegOptions)
    | JxlEncoder
    | MozJpegWith(encoder: MozJpeg.MozJpegEncoder)
    | PngEncoder
    | PPMEncoder
    | QoiEncoder

  /** The subcommand that selects each encoder. */
  function SubcommandOf(k: EncoderKind): string
  {
    match k
    case FarbFeldEncoder => "farbfeld"
    case JpegWith(_) => "jpeg"
    case JxlEncoder => "jpeg_xl"
    case MozJpegWith(_) => "mozjpeg"
    case PngEncoder => "png"
    case PPMEncoder => "ppm"
    case QoiEncoder => "qoi"
  }

  /** The two settings of zune_core's `EncoderOptions` that the `jpeg` branch
      addresses. Its setters take the options by value and return the updated copy. */
  datatype JpegOptions = JpegOptions(quality: u8, progressive: bool)

  /** The `jpeg` branch as written: `options` is an immutable binding and the copies
      returned by `set_quality` and `set_jpeg_encode_progressive` are dropped, so the
      encoder receives `EncoderOptions::default()` whatever the arguments say. */
  function JpegOptionsAsWritten(args: EncoderArgs, defaults: JpegOptions): (o: JpegOptions)
    ensures o == defaults
  {
    defaults
  }

  /** The discrepancy on a concrete input: asking for quality 40 and a progressive
      encoding, the encoder still gets the default quality and a baseline encoding. */
  lemma JpegArgumentsDropped()
    ensures
      var args := EncoderArgs(Some(40), None, true, false, false, None, None, false, None, None);
      var defaults := JpegOptions(80, false);
      JpegOptionsAsWritten(args, defaults) == JpegOptions(80, false) &&
      JpegOptionsFrom(args, defaults) == JpegOptions(40, true)
  {
  }

  /** The `jpeg` branch as evidently intended: a given quality replaces the default one,
      and the encoding is progressive exactly when the `progressive` flag is set. */
  function JpegOptionsFrom(args: EncoderArgs, defaults: JpegOptions): (o: JpegOptions)
    ensures args.quality.Some? ==> o.quality == args.quality.value
    ensures args.quality.None? ==> o.quality == defaults.quality
    ensures o.progressive == args.progressive
  {
    var withQuality := if args.quality.Some? then defaults.(quality := args.quality.value) else defaults;
    withQuality.(progressive := args.progressive)
  }

  /** The code as written agrees with the intended branch exactly when the arguments
      ask for what the defaults already are. */
  lemma JpegAsWrittenAgreesOnlyWithDefaults(args: EncoderArgs, defaults: JpegOptions)
    ensures JpegOptionsAsWritten(args, defaults) == JpegOptionsFrom(args, defaults) <==>
      (args.quality.None? || args.quality.value == defaults.quality) && args.progressive == defaults.progressive
  {
  }

  /** The output file extension of each known encoder subcommand. */
  const EncoderExtensions: map<string, string> := map[
    "farbfeld" := "ff", "jpeg" := "jpg", "jpeg_xl" := "jxl", "mozjpeg" := "jpg",
    "png" := "png", "ppm" := "ppm", "qoi" := "qoi"]

  /** The error for an unknown subcommand, `Encoder "<name>" not found`: it quotes the
      name. */
  function NotFoundMessage(name: string): (m: string)
    ensures |m| == |name| + 20 && m[9..9 + |name|] == name
  {
    "Encoder \"" + name + "\" not found"
  }

  const NoEncoderUsed: string := "No encoder used"

  // The quantisation-table families a `qtable` argument names.

  datatype QTableFamily =
    | AhumadaWatsonPeterson | AnnexK | Flat | KleinSilversteinCarney | MSSSIM
    | NRobidoux | PSNRHVS | PetersonAhumadaWatson | WatsonTaylorBorthwick

  function FamilyName(f: QTableFamily): string
  {
    match f
    case AhumadaWatsonPeterson => "AhumadaWatsonPeterson"
    case AnnexK => "AnnexK"
    case Flat => "Flat"
    case KleinSilversteinCarney => "KleinSilversteinCarney"
    case MSSSIM => "MSSSIM"
    case NRobidoux => "NRobidoux"
    case PSNRHVS => "PSNRHVS"
    case PetersonAhumadaWatson => "PetersonAhumadaWatson"
    case WatsonTaylorBorthwick => "WatsonTaylorBorthwick"
  }

  /** The `qtable` string match; a name it does not know is `unreachable!()`. A name
      is recognised exactly when it is the name of a family. */
  function ParseQTable(name: string): (r: Option<QTableFamily>)
    ensures r.Some? ==> FamilyName(r.value) == name
    ensures r.None? ==> forall f: QTableFamily :: FamilyName(f) != name
  {
    if name == "AhumadaWatsonPeterson" then Some(AhumadaWatsonPeterson)
    else if name == "AnnexK" then Some(AnnexK)
    else if name == "Flat" then Some(Flat)
    else if name == "KleinSilversteinCarney" then Some(KleinSilversteinCarney)
    else if name == "MSSSIM" then Some(MSSSIM)
    else if name == "NRobidoux" then Some(NRobidoux)
    else if name == "PSNRHVS" then Some(PSNRHVS)
    else if name == "PetersonAhumadaWatson" then Some(PetersonAhumadaWatson)
    else if name == "WatsonTaylorBorthwick" then Some(WatsonTaylorBorthwick)
    else None
  }

  /** The family each base table of `mozjpeg::qtable` belongs to. */
  function FamilyOf(t: MozJpeg.BaseQTable): QTableFamily
  {
    match t
    case AhumadaWatsonPeterson => AhumadaWatsonPeterson
    case AnnexK_Luma | AnnexK_Chroma => AnnexK
    case Flat => Flat
    case KleinSilversteinCarney => KleinSilversteinCarney
    case MSSSIM_Luma | MSSSIM_Chroma => MSSSIM
    case NRobidoux => NRobidoux
    case PSNRHVS_Luma | PSNRHVS_Chroma => PSNRHVS
    case PetersonAhumadaWatson => PetersonAhumadaWatson
    case WatsonTaylorBorthwick => WatsonTaylorBorthwick
  }

  predicate IsChromaVariant(t: MozJpeg.BaseQTable)
  {
    t == MozJpeg.AnnexK_Chroma || t == MozJpeg.MSSSIM_Chroma || t == MozJpeg.PSNRHVS_Chroma
  }

  predicate IsLumaVariant(t: MozJpeg.BaseQTable)
  {
    t == MozJpeg.AnnexK_Luma || t == MozJpeg.MSSSIM_Luma || t == MozJpeg.PSNRHVS_Luma
  }

  /** The base table the `luma_qtable` match picks: a table of the named family that is
      not a chroma variant. */
  function LumaBase(f: QTableFamily): (t: MozJpeg.BaseQTable)
    ensures FamilyOf(t) == f && !IsChromaVariant(t)
  {
    match f
    case AhumadaWatsonPeterson => MozJpeg.AhumadaWatsonPeterson
    case AnnexK => MozJpeg.AnnexK_Luma
    case Flat => MozJpeg.Flat
    case KleinSilversteinCarney => MozJpeg.KleinSilversteinCarney
    case MSSSIM => MozJpeg.MSSSIM_Luma
    case NRobidoux => MozJpeg.NRobidoux
    case PSNRHVS => MozJpeg.PSNRHVS_Luma
    case PetersonAhumadaWatson => MozJpeg.PetersonAhumadaWatson
    case WatsonTaylorBorthwick => MozJpeg.WatsonTaylorBorthwick
  }

  /** The base table the `chroma_qtable` match picks: a table of the named family that
      is not a luma variant. */
  function ChromaBase(f: QTableFamily): (t: MozJpeg.BaseQTable)
    ensures FamilyOf(t) == f && !IsLumaVariant(t)
  {
    match f
    case AhumadaWatsonPeterson => MozJpeg.AhumadaWatsonPeterson
    case AnnexK => MozJpeg.AnnexK_Chroma
    case Flat => MozJpeg.Flat
    case KleinSilversteinCarney => MozJpeg.KleinSilversteinCarney
    case MSSSIM => MozJpeg.MSSSIM_Chroma
    case NRobidoux => MozJpeg.NRobidoux
    case PSNRHVS => MozJpeg.PSNRHVS_Chroma
    case PetersonAhumadaWatson => MozJpeg.PetersonAhumadaWatson
    case WatsonTaylorBorthwick => MozJpeg.WatsonTaylorBorthwick
  }

  /** AnnexK, MSSSIM and PSNRHVS are the families with distinct luma and chroma tables;
      every other family uses one table for both. */
  lemma SplitFamilies(f: QTableFamily)
    ensures LumaBase(f) != ChromaBase(f) <==> f in {AnnexK, MSSSIM, PSNRHVS}
    ensures LumaBase(f) != ChromaBase(f) ==> IsLumaVariant(LumaBase(f)) && IsChromaVariant(ChromaBase(f))
  {
  }

  /** The `colorspace` argument values the mozjpeg subcommand accepts. */
  predicate IsCliColorSpace(name: string)
  {
    name == "ycbcr" || name == "rgb" || name == "grayscale"
  }

  /** The `colorspace` match; any other value is `unreachable!()`. Grayscale is the
      only one-component choice. */
  function CliColorSpace(name: string): (j: JColorSpace)
    requires IsCliColorSpace(name)
    ensures j == JCS_YCbCr || j == JCS_EXT_RGB || j == JCS_GRAYSCALE
    ensures JcsComponents(j) == (if name == "grayscale" then 1 else 3)
    ensures name == "rgb" <==> j == JCS_EXT_RGB
  {
    if name == "ycbcr" then JCS_YCbCr
    else if name == "rgb" then JCS_EXT_RGB
    else JCS_GRAYSCALE
  }

  /** What the mozjpeg branch demands of its arguments: `quality` and `colorspace` are
      unwrapped, and an unknown colour space or table name is `unreachable!()`. */
  predicate MozJpegArgsReady(args: EncoderArgs)
  {
    && args.quality.Some?
    && args.colorspace.Some? && IsCliColorSpace(args.colorspace.value)
    && (args.qtable.Some? ==> ParseQTable(args.qtable.value).Some?)
  }

  /** `chroma_quality`: the given one, or the luma quality when absent. */
  function ChromaQuality(args: EncoderArgs): (q: real)
    requires args.quality.Some?
    ensures args.chromaQuality.None? ==> q == args.quality.value as real
    ensures args.chromaQuality.Some? ==> q == args.chromaQuality.value as real
    ensures 0.0 <= q < 256.0
  {
    match args.chromaQuality
    case Some(c) => c as real
    case None => args.quality.value as real
  }

  /** The `MozJpegOptions` the mozjpeg branch builds. The tables are present exactly
      when a family is named, as a pair: the luma one picked for luma and scaled by the
      quality, the chroma one picked for chroma and scaled by the chroma quality. Flags
      are negated into options, smoothing defaults to 0, the rest passes through. */
  function MozJpegOptionsFrom(args: EncoderArgs): (o: MozJpeg.MozJpegOptions)
    requires MozJpegArgsReady(args)
    ensures MozJpeg.TablesPaired(o)
    ensures o.quality == args.quality.value as real
    ensures o.progressive == !args.baseline && o.optimizeCoding == !args.noOptimizeCoding
    ensures o.smoothing == (if args.smoothing.Some? then args.smoothing.value else 0)
    ensures o.colorSpace == CliColorSpace(args.colorspace.value)
    ensures o.trellisMultipass == args.multipass && o.chromaSubsample == args.subsample
    ensures o.lumaQtable.Some? <==> args.qtable.Some?
    ensures args.qtable.Some? ==>
      var f := ParseQTable(args.qtable.value).value;
      o.lumaQtable.value == MozJpeg.Scaled(LumaBase(f), o.quality, o.quality) &&
      o.chromaQtable.value == MozJpeg.Scaled(ChromaBase(f), ChromaQuality(args), ChromaQuality(args))
  {
    var quality := args.quality.value as real;
    var chromaQuality := ChromaQuality(args);
    var family := if args.qtable.Some? then Some(ParseQTable(args.qtable.value).value) else None;
    MozJpeg.MozJpegOptions(
      quality := quality,
      progressive := !args.baseline,
      optimizeCoding := !args.noOptimizeCoding,
      smoothing := if args.smoothing.Some? then args.smoothing.value else 0,
      colorSpace := CliColorSpace(args.colorspace.value),
      trellisMultipass := args.multipass,
      chromaSubsample := args.subsample,
      lumaQtable := if family.Some? then Some(MozJpeg.Scaled(LumaBase(family.value), quality, quality)) else None,
      chromaQtable :=
        if family.Some? then Some(MozJpeg.Scaled(ChromaBase(family.value), chromaQuality, chromaQuality)) else None)
  }

  /** Without a chroma quality both tables are scaled at the luma quality; with one, the
      chroma table follows it and the luma table does not. */
  lemma ChromaQualityOverride(args: EncoderArgs)
    requires MozJpegArgsReady(args) && args.qtable.Some?
    ensures var o := MozJpegOptionsFrom(args);
      && (args.chromaQuality.None? ==> o.chromaQtable.value.first == o.lumaQtable.value.first)
      && (args.chromaQuality.Some? ==>
            o.chromaQtable.value.first == args.chromaQuality.value as real &&
            o.lumaQtable.value.first == args.quality.value as real)
  {
  }

  /** Quality 75, the colour space "ycbcr" and no other argument give exactly the
      encoder's own defaults. */
  lemma CliDefaultsAreLibraryDefaults()
    ensures MozJpegOptionsFrom(EncoderArgs(Some(75), None, false, false, false, None, Some("ycbcr"), false, None, None))
      == MozJpeg.DefaultOptions()
  {
  }

  /** `encoder` as written: no subcommand is "No encoder used"; a known name gives the
      encoder of that name and its extension; any other name is an error that quotes it.
      The `jpeg` encoder gets the options as written, that is, the defaults. */
  function Encoder(sub: Option<Subcommand>, jpegDefaults: JpegOptions): (r: Result<(EncoderKind, string), ImageError>)
    requires sub.Some? && sub.value.name == "mozjpeg" ==> MozJpegArgsReady(sub.value.args)
    ensures sub.None? ==> r == Err(GenericStr(NoEncoderUsed))
    ensures sub.Some? ==> (r.Ok? <==> sub.value.name in EncoderExtensions)
    ensures sub.Some? && r.Ok? ==>
      SubcommandOf(r.value.0) == sub.value.name && r.value.1 == EncoderExtensions[sub.value.name]
    ensures sub.Some? && r.Err? ==> r.error == GenericString(NotFoundMessage(sub.value.name))
    ensures r.Ok? && r.value.0.JpegWith? ==> r.value.0.options == jpegDefaults
    ensures r.Ok? && r.value.0.MozJpegWith? ==>
      r.value.0.encoder == MozJpeg.NewWithOptions(MozJpegOptionsFrom(sub.value.args))
  {
    match sub
    case None => Err(GenericStr(NoEncoderUsed))
    case Some(Subcommand(name, args)) =>
      if name == "farbfeld" then Ok((FarbFeldEncoder, "ff"))
      else if name == "jpeg" then Ok((JpegWith(JpegOptionsAsWritten(args, jpegDefaults)), "jpg"))
      else if name == "jpeg_xl" then Ok((JxlEncoder, "jxl"))
      else if name == "mozjpeg" then Ok((MozJpegWith(MozJpeg.NewWithOptions(MozJpegOptionsFrom(args))), "jpg"))
      else if name == "png" then Ok((PngEncoder, "png"))
      else if name == "ppm" then Ok((PPMEncoder, "ppm"))
      else if name == "qoi" then Ok((QoiEncoder, "qoi"))
      else Err(GenericString(NotFoundMessage(name)))
  }

  /** `encoder` as evidently intended: the same dispatch, with the `jpeg` encoder given
      the quality and progressive mode its arguments ask for. */
  function EncoderRequested(sub: Option<Subcommand>, jpegDefaults: JpegOptions)
    : (r: Result<(EncoderKind, string), ImageError>)
    requires sub.Some? && sub.value.name == "mozjpeg" ==> MozJpegArgsReady(sub.value.args)
    ensures r.Ok? <==> Encoder(sub, jpegDefaults).Ok?
    ensures r.Ok? ==> r.value.1 == Encoder(sub, jpegDefaults).value.1
    ensures r.Ok? && r.value.0.JpegWith? ==> r.value.0.options == JpegOptionsFrom(sub.value.args, jpegDefaults)
    ensures r.Ok? && !r.value.0.JpegWith? ==> r == Encoder(sub, jpegDefaults)
    ensures r.Err? ==> r == Encoder(sub, jpegDefaults)
  {
    match Encoder(sub, jpegDefaults)
    case Ok((JpegWith(_), extension)) => Ok((JpegWith(JpegOptionsFrom(sub.value.args, jpegDefaults)), extension))
    case other => other
  }

  /** The written and the intended dispatch differ only in the `jpeg` branch, and there
      only when the arguments ask for something other than the defaults. */
  lemma EncoderDiffersOnlyForJpegArguments(sub: Option<Subcommand>, jpegDefaults: JpegOptions)
    requires sub.Some? && sub.value.name == "mozjpeg" ==> MozJpegArgsReady(sub.value.args)
    ensures EncoderRequested(sub, jpegDefaults) != Encoder(sub, jpegDefaults) <==>
      sub.Some? && sub.value.name == "jpeg" &&
      JpegOptionsFrom(sub.value.args, jpegDefaults) != jpegDefaults
  {
  }
}
