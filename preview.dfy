/** The preview HTTP handler: the permission and size gates, type dispatch,
    the image pipeline (format check, freshness check, cache lookup, render,
    write-behind store) and the render step itself.

    The handler's collaborators are oracles in Env. Every call the handler
    makes on one of them, and every write to the response, is recorded as an
    Effect, so that "does not touch X" is a statement about the recorded
    trace. */
module Preview {
  import opened Common
  import opened PreviewSizes
  import opened CacheKey

  const StatusNotWritten := 0       // the handler has written the body itself
  const StatusAccepted := 202
  const StatusNotModified := 304
  const StatusBadRequest := 400
  const StatusNotImplemented := 501

  /** "/" */
  const Slash: Byte := 0x2f

  const ImageType: string := "image"

  /** The image formats the handler names; every other format is Other. */
  datatype Format = Jpeg | Gif | Other(id: int)

  datatype ResizeMode = Fit | Fill
  datatype Quality = Low | Medium
  datatype ImgOption = WithMode(mode: ResizeMode) | WithQuality(quality: Quality) | WithFormat(format: Format)

  /** The part of files.FileInfo the handler reads. */
  datatype FileInfo = FileInfo(
    path: seq<Byte>,
    modTime: Int64,     // ModTime.Unix()
    size: Int64,
    fileType: string,
    extension: seq<Byte>)

  /** What the route gives the handler: the user's download permission and
      the two route variables. */
  datatype Request = Request(canDownload: bool, sizeToken: seq<Byte>, path: seq<Byte>)

  /** FormatFromExtension returns a format and an error; the handler looks at
      both, so they are kept apart. */
  datatype Detection = Detection(format: Format, err: Option<Error>)

  /** FileCache.Load returns the bytes, whether the key was found, and an error. */
  datatype Loaded = Loaded(value: seq<Byte>, found: bool, err: Option<Error>)

  /** A status and an error, as every handler returns them. */
  datatype Response = Response(status: int, err: Option<Error>)

  /** The collaborators, one oracle each. */
  datatype Env = Env(
    resolve: seq<Byte> -> Result<FileInfo>,          // files.NewFileInfo
    formatFromExtension: seq<Byte> -> Detection,     // ImgService.FormatFromExtension
    rawFile: FileInfo -> Response,                   // rawFileHandler
    checkEtag: (Int64, Int64) -> bool,               // checkEtag on (mod time, size)
    load: string -> Loaded,                          // FileCache.Load
    open: seq<Byte> -> Option<Error>,                // file.Fs.Open
    resize: (seq<Byte>, int, int, seq<ImgOption>) -> Result<seq<Byte>>, // ImgService.Resize
    store: (string, seq<Byte>) -> Option<Error>,     // FileCache.Store
    errToStatus: Error -> int)                       // errToStatus

  datatype Effect =
    | ResolveFile(path: seq<Byte>)
    | SetDisposition
    | DetectFormat(extension: seq<Byte>)
    | ServeRaw
    | CheckEtag(modTime: Int64, size: Int64)
    | CacheLoad(key: string)
    | OpenFile(path: seq<Byte>)
    | Resize(width: int, height: int, options: seq<ImgOption>)
    | CacheStore(key: string, body: seq<Byte>)   // submitted from a detached goroutine
    | CloseFile
    | Write(body: seq<Byte>)

  datatype Outcome = Outcome(status: int, err: Option<Error>, effects: seq<Effect>)

  predicate EntersImagePipeline(effects: seq<Effect>) {
    exists e | e in effects :: e.DetectFormat?
  }

  predicate ChecksFreshness(effects: seq<Effect>) {
    exists e | e in effects :: e.CheckEtag?
  }

  predicate UsesCache(effects: seq<Effect>) {
    exists e | e in effects :: e.CacheLoad? || e.CacheStore?
  }

  predicate StoresInCache(effects: seq<Effect>) {
    exists e | e in effects :: e.CacheStore?
  }

  predicate Renders(effects: seq<Effect>) {
    exists e | e in effects :: e.OpenFile? || e.Resize?
  }

  predicate WritesBody(effects: seq<Effect>) {
    exists e | e in effects :: e.Write?
  }

  /** Bounding box and options of one render. */
  datatype ResizeSpec = ResizeSpec(width: int, height: int, options: seq<ImgOption>)

  /** The size policy of createPreview: Big needs the resize-preview flag,
      Thumb needs the thumbnails flag; nothing else renders. */
  function SizePolicy(size: PreviewSize, enableThumbnails: bool, resizePreview: bool): (p: Option<ResizeSpec>)
    ensures p.Some? <==> (size == Big && resizePreview) || (size == Thumb && enableThumbnails)
    ensures p.Some? && size == Big ==>
              p.value == ResizeSpec(1080, 1080, [WithMode(Fit), WithQuality(Medium)])
    ensures p.Some? && size == Thumb ==>
              p.value == ResizeSpec(128, 128, [WithMode(Fill), WithQuality(Low), WithFormat(Jpeg)])
  {
    if size == Big && resizePreview then
      Some(ResizeSpec(1080, 1080, [WithMode(Fit), WithQuality(Medium)]))
    else if size == Thumb && enableThumbnails then
      Some(ResizeSpec(128, 128, [WithMode(Fill), WithQuality(Low), WithFormat(Jpeg)]))
    else
      None
  }

  /** The result of createPreview and the calls it made. */
  datatype Rendered = Rendered(result: Result<seq<Byte>>, effects: seq<Effect>)

  /** createPreview: open the file, pick the policy, resize, hand the bytes to
      the cache in the background, close the file. */
  function Render(env: Env, file: FileInfo, size: PreviewSize, enableThumbnails: bool, resizePreview: bool): (r: Rendered)
    // the file is opened first, so an open error wins over the policy check
    ensures |r.effects| >= 1 && r.effects[0] == OpenFile(file.path)
    ensures env.open(file.path).Some? ==>
              r == Rendered(Failure(env.open(file.path).value), [OpenFile(file.path)])
    // the deferred close runs on every exit once the open succeeded, and last
    ensures CloseFile in r.effects <==> env.open(file.path).None?
    ensures env.open(file.path).None? ==> r.effects[|r.effects| - 1] == CloseFile
    // a disabled size class fails as unsupported, without resizing
    ensures env.open(file.path).None? && SizePolicy(size, enableThumbnails, resizePreview).None? ==>
              r == Rendered(Failure(ErrUnsupportedFormat), [OpenFile(file.path), CloseFile])
    // an enabled size is resized to the policy's box with its options: the
    // resizer's error or bytes are the result, and only bytes are stored
    ensures var policy := SizePolicy(size, enableThumbnails, resizePreview);
            env.open(file.path).None? && policy.Some? ==>
              var spec := policy.value;
              var resized := env.resize(file.path, spec.width, spec.height, spec.options);
              r == Rendered(resized,
                            if resized.Success?
                            then [OpenFile(file.path), Resize(spec.width, spec.height, spec.options),
                                  CacheStore(Key(file.path, file.modTime, size), resized.value), CloseFile]
                            else [OpenFile(file.path), Resize(spec.width, spec.height, spec.options), CloseFile])
    // a render only succeeds under the policy, with the resizer's bytes, which are stored under the key
    ensures r.result.Success? ==>
              && SizePolicy(size, enableThumbnails, resizePreview).Some?
              && var spec := SizePolicy(size, enableThumbnails, resizePreview).value;
              && Resize(spec.width, spec.height, spec.options) in r.effects
              && env.resize(file.path, spec.width, spec.height, spec.options) == r.result
              && CacheStore(Key(file.path, file.modTime, size), r.result.value) in r.effects
    // only a successful render is stored; the render itself writes nothing
    ensures StoresInCache(r.effects) ==> r.result.Success?
    ensures !WritesBody(r.effects)
  {
    match env.open(file.path)
    case Some(e) => Rendered(Failure(e), [OpenFile(file.path)])
    case None =>
      match SizePolicy(size, enableThumbnails, resizePreview)
      case None => Rendered(Failure(ErrUnsupportedFormat), [OpenFile(file.path), CloseFile])
      case Some(spec) =>
        var call := Resize(spec.width, spec.height, spec.options);
        match env.resize(file.path, spec.width, spec.height, spec.options)
        case Failure(e) => Rendered(Failure(e), [OpenFile(file.path), call, CloseFile])
        case Success(buf) =>
          Rendered(Success(buf), [OpenFile(file.path), call, CacheStore(Key(file.path, file.modTime, size), buf), CloseFile])
  }

  /** createPreview as the Go code runs it: the options slice is built by
      appending, each collaborator call is appended to the trace as it is
      made, and the store's error is dropped (the goroutine only logs it). */
  method CreatePreview(env: Env, file: FileInfo, size: PreviewSize, enableThumbnails: bool, resizePreview: bool)
    returns (r: Result<seq<Byte>>, effects: seq<Effect>)
    ensures Rendered(r, effects) == Render(env, file, size, enableThumbnails, resizePreview)
  {
    effects := [OpenFile(file.path)];
    var openErr := env.open(file.path);
    if openErr.Some? {
      return Failure(openErr.value), effects;
    }

    var width, height := 0, 0;
    var options: seq<ImgOption> := [];
    if size == Big && resizePreview {
      width, height := 1080, 1080;
      options := options + [WithMode(Fit), WithQuality(Medium)];
      assert options == [WithMode(Fit), WithQuality(Medium)];
      assert SizePolicy(size, enableThumbnails, resizePreview) == Some(ResizeSpec(width, height, options));
    } else if size == Thumb && enableThumbnails {
      width, height := 128, 128;
      options := options + [WithMode(Fill), WithQuality(Low), WithFormat(Jpeg)];
      assert options == [WithMode(Fill), WithQuality(Low), WithFormat(Jpeg)];
      assert SizePolicy(size, enableThumbnails, resizePreview) == Some(ResizeSpec(width, height, options));
    } else {
      effects := effects + [CloseFile];
      assert effects == [OpenFile(file.path), CloseFile];
      return Failure(ErrUnsupportedFormat), effects;
    }

    var call := Resize(width, height, options);
    effects := effects + [call];
    var resized := env.resize(file.path, width, height, options);
    if resized.Failure? {
      effects := effects + [CloseFile];
      assert effects == [OpenFile(file.path), call, CloseFile];
      return Failure(resized.error), effects;
    }
    var buf := resized.value;

    var key := Key(file.path, file.modTime, size);
    effects := effects + [CacheStore(key, buf)];
    var storeErr := env.store(key, buf);  // logged by the goroutine, never returned

    effects := effects + [CloseFile];
    assert effects == [OpenFile(file.path), call, CacheStore(key, buf), CloseFile];
    return Success(buf), effects;
  }

  /** The cache-lookup and render part of handleImagePreview, reached once
      the format is supported and the client's copy is stale. */
  function LookupOrRender(env: Env, file: FileInfo, size: PreviewSize, enableThumbnails: bool, resizePreview: bool): (o: Outcome)
    ensures |o.effects| >= 1 && o.effects[0] == CacheLoad(Key(file.path, file.modTime, size))
    // a failed lookup is an error and nothing is rendered
    ensures var loaded := env.load(Key(file.path, file.modTime, size));
            loaded.err.Some? ==>
              o == Outcome(env.errToStatus(loaded.err.value), loaded.err, [CacheLoad(Key(file.path, file.modTime, size))])
    // a hit writes exactly the cached bytes and neither renders nor stores
    ensures var loaded := env.load(Key(file.path, file.modTime, size));
            loaded.err.None? && loaded.found ==>
              && o == Outcome(StatusNotWritten, None, [CacheLoad(Key(file.path, file.modTime, size)), Write(loaded.value)])
              && !Renders(o.effects) && !StoresInCache(o.effects)
    // a miss renders
    ensures var loaded := env.load(Key(file.path, file.modTime, size));
            loaded.err.None? && !loaded.found ==> Renders(o.effects)
  {
    var key := Key(file.path, file.modTime, size);
    var loaded := env.load(key);
    if loaded.err.Some? then
      Outcome(env.errToStatus(loaded.err.value), loaded.err, [CacheLoad(key)])
    else if loaded.found then
      Outcome(StatusNotWritten, None, [CacheLoad(key), Write(loaded.value)])
    else
      var rendered := Render(env, file, size, enableThumbnails, resizePreview);
      match rendered.result
      case Failure(e) => Outcome(env.errToStatus(e), Some(e), [CacheLoad(key)] + rendered.effects)
      case Success(buf) => Outcome(StatusNotWritten, None, [CacheLoad(key)] + rendered.effects + [Write(buf)])
  }

  /** On a miss, a failed render is mapped to a status; nothing is written
      and nothing is stored. */
  lemma MissRenderFailure(env: Env, file: FileInfo, size: PreviewSize, enableThumbnails: bool, resizePreview: bool)
    requires var loaded := env.load(Key(file.path, file.modTime, size)); loaded.err.None? && !loaded.found
    requires Render(env, file, size, enableThumbnails, resizePreview).result.Failure?
    ensures var o := LookupOrRender(env, file, size, enableThumbnails, resizePreview);
            var e := Render(env, file, size, enableThumbnails, resizePreview).result.error;
            && o.status == env.errToStatus(e) && o.err == Some(e)
            && !WritesBody(o.effects) && !StoresInCache(o.effects)
  {
    var rendered := Render(env, file, size, enableThumbnails, resizePreview);
    var o := LookupOrRender(env, file, size, enableThumbnails, resizePreview);
    assert o.effects == [CacheLoad(Key(file.path, file.modTime, size))] + rendered.effects;
  }

  /** On a miss, the bytes written to the response are the bytes handed to
      the cache, and they are stored under the key the lookup used. */
  lemma MissWritesWhatItStores(env: Env, file: FileInfo, size: PreviewSize, enableThumbnails: bool, resizePreview: bool)
    requires var loaded := env.load(Key(file.path, file.modTime, size)); loaded.err.None? && !loaded.found
    requires Render(env, file, size, enableThumbnails, resizePreview).result.Success?
    ensures var o := LookupOrRender(env, file, size, enableThumbnails, resizePreview);
            var key := Key(file.path, file.modTime, size);
            var body := Render(env, file, size, enableThumbnails, resizePreview).result.value;
            && o.status == StatusNotWritten && o.err.None?
            && o.effects[0] == CacheLoad(key)
            && o.effects[|o.effects| - 1] == Write(body)
            && CacheStore(key, body) in o.effects
  {
    var rendered := Render(env, file, size, enableThumbnails, resizePreview);
    var o := LookupOrRender(env, file, size, enableThumbnails, resizePreview);
    var key := Key(file.path, file.modTime, size);
    assert o.effects == [CacheLoad(key)] + rendered.effects + [Write(rendered.result.value)];
    assert CacheStore(key, rendered.result.value) in rendered.effects;
  }

  /** On a miss, an enabled size whose file opens and resizes is written and
      stored with the resizer's bytes, in createPreview's order. */
  lemma MissRendersEnabledSize(env: Env, file: FileInfo, size: PreviewSize, enableThumbnails: bool, resizePreview: bool)
    requires var loaded := env.load(Key(file.path, file.modTime, size)); loaded.err.None? && !loaded.found
    requires env.open(file.path).None?
    requires SizePolicy(size, enableThumbnails, resizePreview).Some?
    requires var spec := SizePolicy(size, enableThumbnails, resizePreview).value;
             env.resize(file.path, spec.width, spec.height, spec.options).Success?
    ensures var spec := SizePolicy(size, enableThumbnails, resizePreview).value;
            var buf := env.resize(file.path, spec.width, spec.height, spec.options).value;
            var key := Key(file.path, file.modTime, size);
            LookupOrRender(env, file, size, enableThumbnails, resizePreview)
              == Outcome(StatusNotWritten, None,
                         [CacheLoad(key), OpenFile(file.path), Resize(spec.width, spec.height, spec.options),
                          CacheStore(key, buf), CloseFile, Write(buf)])
  {
    var spec := SizePolicy(size, enableThumbnails, resizePreview).value;
    var call := Resize(spec.width, spec.height, spec.options);
    var buf := env.resize(file.path, spec.width, spec.height, spec.options).value;
    var key := Key(file.path, file.modTime, size);
    var rendered := Render(env, file, size, enableThumbnails, resizePreview);
    assert rendered == Rendered(Success(buf), [OpenFile(file.path), call, CacheStore(key, buf), CloseFile]);
    var o := LookupOrRender(env, file, size, enableThumbnails, resizePreview);
    assert o == Outcome(StatusNotWritten, None, [CacheLoad(key)] + rendered.effects + [Write(buf)]);
  }

  /** Raw passthrough applies to an unsupported extension and to GIF; the
      format is compared even when detection also returned an error. */
  predicate ServedRaw(det: Detection) {
    det.err == Some(ErrUnsupportedFormat) || det.format == Gif
  }

  /** handleImagePreview. */
  function HandleImagePreview(env: Env, file: FileInfo, size: PreviewSize, enableThumbnails: bool, resizePreview: bool): (o: Outcome)
    ensures |o.effects| >= 1 && o.effects[0] == DetectFormat(file.extension)
    ensures var det := env.formatFromExtension(file.extension);
            // unsupported or GIF: the original bytes, and no freshness check, cache or render
            && (ServedRaw(det) ==>
                  && Response(o.status, o.err) == env.rawFile(file)
                  && ServeRaw in o.effects
                  && !ChecksFreshness(o.effects) && !UsesCache(o.effects) && !Renders(o.effects))
            // any other detection error is mapped to a status
            && (!ServedRaw(det) && det.err.Some? ==>
                  && o == Outcome(env.errToStatus(det.err.value), det.err, [DetectFormat(file.extension)]))
            // the freshness check comes first; a fresh copy is 304 with no cache traffic or render
            && (!ServedRaw(det) && det.err.None? ==>
                  && |o.effects| >= 2 && o.effects[1] == CheckEtag(file.modTime, file.size)
                  && (env.checkEtag(file.modTime, file.size) ==>
                        o.status == StatusNotModified && o.err.None? && !UsesCache(o.effects) && !Renders(o.effects))
                  && (!env.checkEtag(file.modTime, file.size) ==>
                        var rest := LookupOrRender(env, file, size, enableThumbnails, resizePreview);
                        o == Outcome(rest.status, rest.err, [DetectFormat(file.extension), CheckEtag(file.modTime, file.size)] + rest.effects)))
  {
    var det := env.formatFromExtension(file.extension);
    var detected := [DetectFormat(file.extension)];
    if ServedRaw(det) then
      var raw := env.rawFile(file);
      Outcome(raw.status, raw.err, detected + [ServeRaw])
    else if det.err.Some? then
      Outcome(env.errToStatus(det.err.value), det.err, detected)
    else
      var checked := detected + [CheckEtag(file.modTime, file.size)];
      if env.checkEtag(file.modTime, file.size) then
        Outcome(StatusNotModified, None, checked)
      else
        var rest := LookupOrRender(env, file, size, enableThumbnails, resizePreview);
        Outcome(rest.status, rest.err, checked + rest.effects)
  }

  /** previewHandler. */
  function PreviewHandler(env: Env, req: Request, enableThumbnails: bool, resizePreview: bool): (o: Outcome)
    // without the download permission: 202, no error, nothing touched
    ensures !req.canDownload ==> o == Outcome(StatusAccepted, None, [])
    // a size token other than the two names: 400 before the file is resolved
    ensures req.canDownload && req.sizeToken != SizeName(Thumb) && req.sizeToken != SizeName(Big) ==>
              o == Outcome(StatusBadRequest, Some(InvalidSize(req.sizeToken)), [])
    // past both gates, the first call resolves "/" + path
    ensures o.effects != [] ==>
              && req.canDownload && ParsePreviewSize(req.sizeToken).Success?
              && o.effects[0] == ResolveFile([Slash] + req.path)
    ensures req.canDownload && ParsePreviewSize(req.sizeToken).Success? ==>
              var size := ParsePreviewSize(req.sizeToken).value;
              var resolved := env.resolve([Slash] + req.path);
              && (resolved.Failure? ==>
                    o == Outcome(env.errToStatus(resolved.error), Some(resolved.error), [ResolveFile([Slash] + req.path)]))
              // only images enter the pipeline; every other type is 501
              && (resolved.Success? && resolved.value.fileType != ImageType ==>
                    && o.status == StatusNotImplemented
                    && o.err == Some(NoPreviewForType(resolved.value.fileType))
                    && !EntersImagePipeline(o.effects) && !UsesCache(o.effects) && !Renders(o.effects))
              && (resolved.Success? && resolved.value.fileType == ImageType ==>
                    var inner := HandleImagePreview(env, resolved.value, size, enableThumbnails, resizePreview);
                    o == Outcome(inner.status, inner.err, [ResolveFile([Slash] + req.path), SetDisposition] + inner.effects))
  {
    if !req.canDownload then
      Outcome(StatusAccepted, None, [])
    else
      match ParsePreviewSize(req.sizeToken)
      case Failure(e) => Outcome(StatusBadRequest, Some(e), [])
      case Success(size) =>
        var path := [Slash] + req.path;
        match env.resolve(path)
        case Failure(e) => Outcome(env.errToStatus(e), Some(e), [ResolveFile(path)])
        case Success(file) =>
          var resolved := [ResolveFile(path), SetDisposition];
          if file.fileType == ImageType then
            var inner := HandleImagePreview(env, file, size, enableThumbnails, resizePreview);
            Outcome(inner.status, inner.err, resolved + inner.effects)
          else
            Outcome(StatusNotImplemented, Some(NoPreviewForType(file.fileType)), resolved)
  }

  /** A later request for the same file and size, once the cache holds what
      a miss stored, is a hit: it writes the same bytes the miss wrote and
      does not render. */
  lemma HitAfterStore(env: Env, file: FileInfo, size: PreviewSize, enableThumbnails: bool, resizePreview: bool)
    requires var loaded := env.load(Key(file.path, file.modTime, size)); loaded.err.None? && !loaded.found
    requires Render(env, file, size, enableThumbnails, resizePreview).result.Success?
    ensures var first := LookupOrRender(env, file, size, enableThumbnails, resizePreview);
            var key := Key(file.path, file.modTime, size);
            var body := Render(env, file, size, enableThumbnails, resizePreview).result.value;
            var cached := env.(load := (k: string) => if k == key then Loaded(body, true, None) else env.load(k));
            var second := LookupOrRender(cached, file, size, enableThumbnails, resizePreview);
            && CacheStore(key, body) in first.effects
            && second.status == first.status && second.err == first.err
            && second.effects[|second.effects| - 1] == first.effects[|first.effects| - 1]
            && second == Outcome(StatusNotWritten, None, [CacheLoad(key), Write(body)])
  {
    MissWritesWhatItStores(env, file, size, enableThumbnails, resizePreview);
  }

  /** The store's error is never seen by the handler: changing what Store
      returns changes nothing in the outcome. */
  lemma StoreErrorIgnored(env: Env, req: Request, enableThumbnails: bool, resizePreview: bool,
                          store: (string, seq<Byte>) -> Option<Error>)
    ensures PreviewHandler(env.(store := store), req, enableThumbnails, resizePreview)
         == PreviewHandler(env, req, enableThumbnails, resizePreview)
  {
    var parsed := ParsePreviewSize(req.sizeToken);
    var resolved := env.resolve([Slash] + req.path);
    if req.canDownload && parsed.Success? && resolved.Success? {
      var file := resolved.value;
      LookupIgnoresStore(env, file, parsed.value, enableThumbnails, resizePreview, store);
      assert HandleImagePreview(env.(store := store), file, parsed.value, enableThumbnails, resizePreview)
          == HandleImagePreview(env, file, parsed.value, enableThumbnails, resizePreview);
    }
  }

  lemma LookupIgnoresStore(env: Env, file: FileInfo, size: PreviewSize, enableThumbnails: bool, resizePreview: bool,
                           store: (string, seq<Byte>) -> Option<Error>)
    ensures LookupOrRender(env.(store := store), file, size, enableThumbnails, resizePreview)
         == LookupOrRender(env, file, size, enableThumbnails, resizePreview)
  {
    assert Render(env.(store := store), file, size, enableThumbnails, resizePreview)
        == Render(env, file, size, enableThumbnails, resizePreview);
  }

  /** A size class whose flag is off fails as unsupported after the file was
      opened and closed; it never falls back to serving the raw file. */
  lemma DisabledSizeIsUnsupported(env: Env, file: FileInfo, size: PreviewSize, enableThumbnails: bool, resizePreview: bool)
    requires !(size == Big && resizePreview) && !(size == Thumb && enableThumbnails)
    requires var det := env.formatFromExtension(file.extension); !ServedRaw(det) && det.err.None?
    requires !env.checkEtag(file.modTime, file.size)
    requires var loaded := env.load(Key(file.path, file.modTime, size)); loaded.err.None? && !loaded.found
    requires env.open(file.path).None?
    ensures HandleImagePreview(env, file, size, enableThumbnails, resizePreview)
         == Outcome(env.errToStatus(ErrUnsupportedFormat), Some(ErrUnsupportedFormat),
                    [DetectFormat(file.extension), CheckEtag(file.modTime, file.size),
                     CacheLoad(Key(file.path, file.modTime, size)), OpenFile(file.path), CloseFile])
  {
    DisabledSizeMiss(env, file, size, enableThumbnails, resizePreview);
  }

  /** The lookup-or-render step of DisabledSizeIsUnsupported. */
  lemma DisabledSizeMiss(env: Env, file: FileInfo, size: PreviewSize, enableThumbnails: bool, resizePreview: bool)
    requires SizePolicy(size, enableThumbnails, resizePreview).None?
    requires var loaded := env.load(Key(file.path, file.modTime, size)); loaded.err.None? && !loaded.found
    requires env.open(file.path).None?
    ensures LookupOrRender(env, file, size, enableThumbnails, resizePreview)
         == Outcome(env.errToStatus(ErrUnsupportedFormat), Some(ErrUnsupportedFormat),
                    [CacheLoad(Key(file.path, file.modTime, size)), OpenFile(file.path), CloseFile])
  {
    var rendered := Render(env, file, size, enableThumbnails, resizePreview);
    assert rendered == Rendered(Failure(ErrUnsupportedFormat), [OpenFile(file.path), CloseFile]);
  }
}
