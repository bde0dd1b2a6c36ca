/**
 * What the request handling promises, stated over `ReplyTo` and the
 * functions it is built from.
 */
module ServerProperties {
  import opened Wrappers
  import opened Php
  import Base64
  import opened Converter
  import opened Server

  const NotFoundReply := Reply(404, CorsHeaders, Json(EndpointMissing("Endpoint not found")))

  // -----------------------------------------------------------------------
  // CORS, preflight and routing
  // -----------------------------------------------------------------------

  /** The upload route always answers with the CORS headers and a JSON
      content type, whether it succeeds or fails: a corollary of the
      contracts of `ConvertReply` and `ErrorReply`, stated on the route. */
  lemma ConvertReplyHeaders(s: Settings, request: Request, world: World)
    ensures ConvertReply(s, request, world).headers == CorsHeaders + [JsonContentType]
  {
  }

  /** A download reply, found or not, starts with the CORS headers: a
      corollary of the contract of `DownloadReply`. */
  lemma DownloadReplyHeaders(uploadDir: string, uri: string, disk: map<string, FileInfo>)
    ensures |DownloadReply(uploadDir, uri, disk).headers| >= 4
    ensures DownloadReply(uploadDir, uri, disk).headers[..4] == CorsHeaders
  {
    var filePath := uploadDir + "/" + Basename(uri);
    if filePath in disk {
      var contentType := ("Content-Type", disk[filePath].mime);
      var disposition := ("Content-Disposition", "inline; filename=\"" + Basename(filePath) + "\"");
      var caching := ("Cache-Control", "public, max-age=86400");
      assert DownloadReply(uploadDir, uri, disk).headers == CorsHeaders + [contentType] + [disposition] + [caching];
      CorsPrefix3(contentType, disposition, caching);
    }
  }

  /** Every reply starts with the four CORS headers, whatever the route: a
      corollary of the contract of `ReplyTo`, taken route by route. */
  lemma CorsHeadersFirst(s: Settings, request: Request, world: World)
    ensures |ReplyTo(s, request, world).headers| >= 4
    ensures ReplyTo(s, request, world).headers[..4] == CorsHeaders
  {
    var h := ReplyTo(s, request, world).headers;
    match RouteOf(request.verb, request.uri)
    case Preflight =>
      assert h == CorsHeaders;
    case ConvertUpload =>
      ConvertReplyHeaders(s, request, world);
      CorsPrefix([JsonContentType]);
    case DownloadImage =>
      DownloadReplyHeaders(s.uploadDir, PathOf(request.uri), world.disk);
    case HealthCheck =>
      assert h == CorsHeaders + [JsonContentType];
      CorsPrefix([JsonContentType]);
    case NoEndpoint =>
      assert h == CorsHeaders;
  }

  /** OPTIONS on any path: 200, the CORS headers only, an empty body. */
  lemma PreflightAnyPath(s: Settings, request: Request, world: World)
    requires request.verb == "OPTIONS"
    ensures ReplyTo(s, request, world) == Reply(200, CorsHeaders, Text(""))
  {
  }

  lemma ConvertIsNotADownloadPath()
    ensures !StartsWith("/convert", DownloadPrefix) && !StartsWith("/health", DownloadPrefix)
  {
  }

  lemma DownloadPathRoute(verb: string, uri: Option<string>)
    requires verb != "OPTIONS" && StartsWith(PathOf(uri), DownloadPrefix)
    ensures RouteOf(verb, uri) == DownloadImage
  {
    assert |PathOf(uri)| >= 10;
  }

  /** `/convert` is taken only with POST: `GET /convert` is a 404. */
  lemma ConvertNeedsPost(s: Settings, request: Request, world: World)
    requires PathOf(request.uri) == "/convert"
    requires request.verb != "POST" && request.verb != "OPTIONS"
    ensures ReplyTo(s, request, world) == NotFoundReply
  {
    ConvertIsNotADownloadPath();
  }

  /** Any path beginning with `/download/` is a download, for every method
      but OPTIONS. */
  lemma DownloadAnyMethod(s: Settings, request: Request, world: World)
    requires request.verb != "OPTIONS" && StartsWith(PathOf(request.uri), DownloadPrefix)
    ensures ReplyTo(s, request, world) == DownloadReply(s.uploadDir, PathOf(request.uri), world.disk)
  {
    DownloadPathRoute(request.verb, request.uri);
  }

  /** `/health` matches exactly, for any method but OPTIONS, and answers 200
      with status "ok" whether or not the imaging extension is loaded. */
  lemma HealthAlwaysOk(s: Settings, request: Request, world: World)
    requires request.verb != "OPTIONS" && PathOf(request.uri) == "/health"
    ensures ReplyTo(s, request, world).status == 200
    ensures ReplyTo(s, request, world).body.Json? && ReplyTo(s, request, world).body.payload.HealthStatus?
    ensures ReplyTo(s, request, world).body.payload.status == "ok"
    ensures ReplyTo(s, request, world).body.payload.imagick == world.imagickLoaded
  {
    ConvertIsNotADownloadPath();
  }

  /** Every other request gets 404 with `{"error":"Endpoint not found"}`. */
  lemma OtherPathsNotFound(s: Settings, request: Request, world: World)
    requires request.verb != "OPTIONS"
    requires !(PathOf(request.uri) == "/convert" && request.verb == "POST")
    requires !StartsWith(PathOf(request.uri), DownloadPrefix)
    requires PathOf(request.uri) != "/health"
    ensures ReplyTo(s, request, world) == NotFoundReply
  {
  }

  // -----------------------------------------------------------------------
  // Upload validation
  // -----------------------------------------------------------------------

  lemma MaxSizeMessage()
    ensures IntToString(MaxUploadSize / 1024 / 1024) == "10"
  {
    assert MaxUploadSize / 1024 / 1024 == 10;
    assert NatToString(10) == NatToString(1) + [DigitChar(0)];
  }

  lemma MaxSizeMessageText()
    ensures "File too large. Maximum size is " + IntToString(MaxUploadSize / 1024 / 1024) + "MB"
      == "File too large. Maximum size is 10MB"
  {
    MaxSizeMessage();
  }

  /** The checks run in source order and the first failing one decides:
      a missing file, then the upload error code, then the sniffed MIME
      type, then the size. */
  lemma ValidationOrder(files: map<string, Upload>, disk: map<string, FileInfo>)
    ensures "pdf_file" !in files ==>
      ValidateUpload(files, disk) == Err(InvalidArgument("No PDF file uploaded"))
    ensures "pdf_file" in files && files["pdf_file"].error != UploadErrOk ==>
      ValidateUpload(files, disk) == Err(Runtime("File upload error: " + UploadErrorMessage(files["pdf_file"].error)))
    ensures ("pdf_file" in files && files["pdf_file"].error == UploadErrOk
             && MimeOf(disk, files["pdf_file"].tmpName) != Some(PdfMime)) ==>
      ValidateUpload(files, disk) == Err(InvalidArgument("Invalid file type. Only PDF files are allowed"))
    ensures ("pdf_file" in files && files["pdf_file"].error == UploadErrOk
             && MimeOf(disk, files["pdf_file"].tmpName) == Some(PdfMime) && files["pdf_file"].size > MaxUploadSize) ==>
      ValidateUpload(files, disk) == Err(InvalidArgument("File too large. Maximum size is 10MB"))
  {
    MaxSizeMessageText();
  }

  /** Exactly 10 MiB passes the size check; one byte more does not. */
  lemma SizeBoundary(upload: Upload, disk: map<string, FileInfo>)
    requires upload.error == UploadErrOk && MimeOf(disk, upload.tmpName) == Some(PdfMime)
    ensures upload.size == 10485760 ==> ValidateUpload(map["pdf_file" := upload], disk) == Ok(upload)
    ensures upload.size == 10485761 ==>
      (ValidateUpload(map["pdf_file" := upload], disk).Err?
       && ValidateUpload(map["pdf_file" := upload], disk).error.kind == InvalidArgumentException)
  {
  }

  /** A file whose sniffed type is not `application/pdf` is rejected with
      InvalidArgumentException, whatever name or size the client gave. */
  lemma NonPdfRejected(upload: Upload, disk: map<string, FileInfo>)
    requires upload.error == UploadErrOk && MimeOf(disk, upload.tmpName) != Some(PdfMime)
    ensures ErrorStatus(ValidateUpload(map["pdf_file" := upload], disk).error) == 400
  {
  }

  /** The seven named upload errors have their own messages; any other code,
      such as 5, reads "Unknown upload error". Two codes share a message
      exactly when they are the same code or both unnamed. */
  lemma UploadErrorMessages(a: int, b: int)
    ensures UploadErrorMessage(UploadErrPartial) == "The uploaded file was only partially uploaded"
    ensures UploadErrorMessage(5) == "Unknown upload error"
    ensures UploadErrorMessage(UploadErrNoTmpDir) != UploadErrorMessage(5)
    ensures UploadErrorMessage(a) == UploadErrorMessage(b)
      <==> a == b || (a !in NamedUploadErrors && b !in NamedUploadErrors)
  {
    if a != b && a in NamedUploadErrors && b in NamedUploadErrors {
      NamedMessageLength(a);
      NamedMessageLength(b);
    }
  }

  /** The named code whose text has length n, 0 when there is none. */
  function CodeOfLength(n: nat): int
  {
    if n == 70 then UploadErrIniSize
    else if n == 89 then UploadErrFormSize
    else if n == 45 then UploadErrPartial
    else if n == 20 then UploadErrNoFile
    else if n == 26 then UploadErrNoTmpDir
    else if n == 28 then UploadErrCantWrite
    else if n == 39 then UploadErrExtension
    else 0
  }

  /** The seven named texts have seven different lengths, so a named
      code is recovered from the length of its text. */
  lemma NamedMessageLength(a: int)
    requires a in NamedUploadErrors
    ensures CodeOfLength(|UploadErrorMessage(a)|) == a
  {
    if a <= UploadErrNoFile {
      LowCodeLength(a);
    } else {
      HighCodeLength(a);
    }
  }

  /** Codes 1 to 4: their texts have lengths 70, 89, 45 and 20. */
  lemma LowCodeLength(a: int)
    requires UploadErrIniSize <= a <= UploadErrNoFile
    ensures CodeOfLength(|UploadErrorMessage(a)|) == a
  {
    if a == UploadErrIniSize {
      assert |UploadErrorMessage(a)| == 70;
    } else if a == UploadErrFormSize {
      assert |UploadErrorMessage(a)| == 89;
    } else if a == UploadErrPartial {
      assert |UploadErrorMessage(a)| == 45;
    } else {
      assert |UploadErrorMessage(a)| == 20;
    }
  }

  /** Codes 6 to 8: their texts have lengths 26, 28 and 39. */
  lemma HighCodeLength(a: int)
    requires UploadErrNoTmpDir <= a <= UploadErrExtension
    ensures CodeOfLength(|UploadErrorMessage(a)|) == a
  {
    if a == UploadErrNoTmpDir {
      assert |UploadErrorMessage(a)| == 26;
    } else if a == UploadErrCantWrite {
      assert |UploadErrorMessage(a)| == 28;
    } else {
      assert |UploadErrorMessage(a)| == 39;
    }
  }

  // -----------------------------------------------------------------------
  // Errors
  // -----------------------------------------------------------------------

  /** An exception becomes 400 when it is an InvalidArgumentException and 500
      otherwise, with its message, code and class name in the body, and a
      trace only when APP_ENV is exactly "development". */
  lemma ErrorClassification(e: Exception, env: map<string, string>)
    ensures ErrorReply(e, env).status == (if e.kind == InvalidArgumentException then 400 else 500)
    ensures ErrorReply(e, env).headers == CorsHeaders + [JsonContentType]
    ensures ErrorReply(e, env).body == Json(ErrorInfo(e.message, e.code, ClassName(e.kind), ErrorReply(e, env).body.payload.withTrace))
    ensures ErrorReply(e, env).body.payload.withTrace <==> "APP_ENV" in env && env["APP_ENV"] == "development"
  {
  }

  /** A failed validation answers with the validation error; the converter
      is not consulted. */
  lemma RejectedUploadNotConverted(s: Settings, request: Request, world: World, document: Document)
    requires ValidateUpload(request.files, world.disk).Err?
    ensures ConvertReply(s, request, world) == ConvertReply(s, request, world.(uploadedPdf := document))
    ensures ConvertReply(s, request, world) == ErrorReply(ValidateUpload(request.files, world.disk).error, world.env)
  {
  }

  // -----------------------------------------------------------------------
  // The success payload
  // -----------------------------------------------------------------------

  /** A converted upload answers 200 with the client's file name as given,
      one image per converter entry, in order, each entry behind the base
      URL `scheme://host:port/download/`. */
  lemma SuccessPayload(s: Settings, request: Request, world: World, result: seq<string>)
    requires ValidateUpload(request.files, world.disk).Ok?
    requires ConversionOutcome(s.converterDir, PostField(request.post, "dpi", DefaultDpi),
      PostField(request.post, "quality", DefaultQuality), world.imagickLoaded, world.uploadedPdf) == Ok(result)
    ensures ConvertReply(s, request, world).status == 200
    ensures ConvertReply(s, request, world).body.Json?
    ensures ConvertReply(s, request, world).body.payload.Converted?
    ensures ConvertReply(s, request, world).body.payload.originalName == request.files["pdf_file"].name
    ensures ConvertReply(s, request, world).body.payload.pages == |result|
    ensures |ConvertReply(s, request, world).body.payload.images| == |result|
    ensures forall i :: 0 <= i < |result| ==>
      ConvertReply(s, request, world).body.payload.images[i]
        == s.scheme + "://" + s.host + ":" + IntToString(s.port) + "/download/" + result[i]
  {
  }

  /** A conversion failure answers 500 with `handleError`'s document for
      the converter's RuntimeException. */
  lemma ConversionFailureIs500(s: Settings, request: Request, world: World)
    requires ValidateUpload(request.files, world.disk).Ok?
    requires ConversionOutcome(s.converterDir, PostField(request.post, "dpi", DefaultDpi),
      PostField(request.post, "quality", DefaultQuality), world.imagickLoaded, world.uploadedPdf).Err?
    ensures ConvertReply(s, request, world).status == 500
    ensures ConvertReply(s, request, world) == ErrorReply(ConversionOutcome(s.converterDir,
      PostField(request.post, "dpi", DefaultDpi), PostField(request.post, "quality", DefaultQuality),
      world.imagickLoaded, world.uploadedPdf).error, world.env)
  {
  }

  /** Without `dpi` and `quality` fields a readable one-page PDF converts to
      the single entry `150.png`: the dpi default is the converter's file
      name and the quality default "90" selects file output, so every such
      upload shares that name (and, by SuccessPayload, the link
      `<base URL>150.png`). */
  lemma DefaultFieldsName150(dir: string, post: map<string, string>, page: Page)
    requires "dpi" !in post && "quality" !in post && page.fault.None?
    ensures ConversionOutcome(dir, PostField(post, "dpi", DefaultDpi), PostField(post, "quality", DefaultQuality),
      true, Readable([page])) == Ok(["150.png"])
  {
    assert PostField(post, "dpi", DefaultDpi) == DefaultDpi;
    assert PostField(post, "quality", DefaultQuality) == DefaultQuality;
    SinglePageName(dir, DefaultDpi, DefaultQuality, page);
    DefaultName();
  }

  lemma DefaultName()
    ensures DefaultDpi + ".png" == "150.png"
  {
    var name := DefaultDpi + ".png";
    assert |name| == 7;
    assert forall k :: 0 <= k < 7 ==> name[k] == "150.png"[k];
  }

  /** A `quality` field of exactly "base64" selects the converter's base64
      mode, and the encodings are then put behind the base URL like file
      names. */
  lemma QualityBase64PrefixesEncodings(s: Settings, request: Request, world: World, pages: seq<Page>, i: nat)
    requires ValidateUpload(request.files, world.disk).Ok?
    requires "quality" in request.post && request.post["quality"] == "base64"
    requires world.imagickLoaded && world.uploadedPdf == Readable(pages)
    requires forall j :: 0 <= j < |pages| ==> pages[j].fault.None?
    requires i < |pages|
    ensures ConvertReply(s, request, world).body.Json?
    ensures |ConvertReply(s, request, world).body.payload.images| == |pages|
    ensures ConvertReply(s, request, world).body.payload.images[i]
      == BaseUrl(s.scheme, s.host, s.port) + Base64.Encode(pages[i].blob)
  {
    var filename := PostField(request.post, "dpi", DefaultDpi);
    OneEntryPerPage(s.converterDir, filename, Base64Mode, true, Readable(pages));
    Base64ModeEntries(s.converterDir, filename, pages, i);
  }

  /** The form field `output` plays no part in the reply. */
  lemma OutputFieldIgnored(s: Settings, request: Request, world: World, v: string)
    ensures ReplyTo(s, request.(post := request.post["output" := v]), world) == ReplyTo(s, request, world)
  {
    var request' := request.(post := request.post["output" := v]);
    assert PostField(request'.post, "dpi", DefaultDpi) == PostField(request.post, "dpi", DefaultDpi);
    assert PostField(request'.post, "quality", DefaultQuality) == PostField(request.post, "quality", DefaultQuality);
  }

  // -----------------------------------------------------------------------
  // Downloads
  // -----------------------------------------------------------------------

  lemma DownloadPrefixHasD(uri: string)
    requires StartsWith(uri, DownloadPrefix)
    ensures uri[1] == 'd'
  {
    assert uri[1] == uri[..|DownloadPrefix|][1];
  }

  /** The served name is the basename of the request path: never empty for
      a download path, and never holding '/'. */
  lemma DownloadNameIsOneComponent(uri: string)
    requires StartsWith(uri, DownloadPrefix)
    ensures Basename(uri) != [] && '/' !in Basename(uri)
  {
    DownloadPrefixHasD(uri);
    BasenameNonEmpty(uri, 1);
  }

  /** The basename can still be "..": `/download/..` names the parent of
      the upload directory. */
  lemma DotDotNameResolves()
    ensures Basename("/download/..") == ".."
  {
    assert "/download/.." == "/download" + "/" + "..";
    BasenameOfJoin("/download", "..");
  }

  /** A name that does not exist in the upload directory is a 404 with the
      text "Image not found". */
  lemma DownloadMissing(uploadDir: string, uri: string, disk: map<string, FileInfo>)
    requires uploadDir + "/" + Basename(uri) !in disk
    ensures DownloadReply(uploadDir, uri, disk) == Reply(404, CorsHeaders, Text("Image not found"))
  {
  }

  lemma HeaderValueLast(headers: seq<Header>, h: Header, name: string)
    ensures HeaderValue(headers + [h], name)
      == if h.0 == name then Some(h.1) else HeaderValue(headers, name)
  {
    assert (headers + [h])[..|headers|] == headers;
  }

  /** An existing file is served with its bytes, its sniffed type, an inline
      disposition naming it, and a one-day public cache directive. */
  lemma DownloadFound(uploadDir: string, uri: string, disk: map<string, FileInfo>)
    requires StartsWith(uri, DownloadPrefix)
    requires uploadDir + "/" + Basename(uri) in disk
    ensures DownloadReply(uploadDir, uri, disk).status == 200
    ensures DownloadReply(uploadDir, uri, disk).body == Bytes(disk[uploadDir + "/" + Basename(uri)].content)
    ensures HeaderValue(DownloadReply(uploadDir, uri, disk).headers, "Content-Type")
      == Some(disk[uploadDir + "/" + Basename(uri)].mime)
    ensures HeaderValue(DownloadReply(uploadDir, uri, disk).headers, "Content-Disposition")
      == Some("inline; filename=\"" + Basename(uri) + "\"")
    ensures HeaderValue(DownloadReply(uploadDir, uri, disk).headers, "Cache-Control")
      == Some("public, max-age=86400")
  {
    var name := Basename(uri);
    var filePath := uploadDir + "/" + name;
    DownloadNameIsOneComponent(uri);
    BasenameOfJoin(uploadDir, name);
    var h1 := ("Content-Type", disk[filePath].mime);
    var h2 := ("Content-Disposition", "inline; filename=\"" + name + "\"");
    var h3 := ("Cache-Control", "public, max-age=86400");
    assert DownloadReply(uploadDir, uri, disk).headers == CorsHeaders + [h1] + [h2] + [h3];
    HeaderValueLast(CorsHeaders + [h1] + [h2], h3, "Content-Type");
    HeaderValueLast(CorsHeaders + [h1] + [h2], h3, "Content-Disposition");
    HeaderValueLast(CorsHeaders + [h1] + [h2], h3, "Cache-Control");
    HeaderValueLast(CorsHeaders + [h1], h2, "Content-Type");
    HeaderValueLast(CorsHeaders + [h1], h2, "Content-Disposition");
    HeaderValueLast(CorsHeaders, h1, "Content-Type");
  }

  /** A download path is the directory `/download` joined with the name. */
  lemma DownloadPathIsJoin(name: string)
    ensures DownloadPrefix + name == "/download" + "/" + name
  {
    assert DownloadPrefix == "/download" + "/";
  }

  lemma LinkPath(scheme: string, host: string, port: int, name: string)
    ensures BaseUrl(scheme, host, port) + name == scheme + "://" + host + ":" + IntToString(port) + (DownloadPrefix + name)
  {
    var authority := scheme + "://" + host + ":" + IntToString(port);
    assert BaseUrl(scheme, host, port) + name == (authority + DownloadPrefix) + name;
  }

  lemma LinkNameResolves(name: string)
    requires name != [] && '/' !in name
    ensures Basename(DownloadPrefix + name) == name
  {
    DownloadPathIsJoin(name);
    BasenameOfJoin("/download", name);
  }

  /** The link given for an image name routes, for any method but OPTIONS,
      to the download handler, which resolves it back to that name. */
  lemma ImageLinksAreServed(scheme: string, host: string, port: int, name: string, verb: string)
    requires name != [] && '/' !in name && verb != "OPTIONS"
    ensures BaseUrl(scheme, host, port) + name == scheme + "://" + host + ":" + IntToString(port) + (DownloadPrefix + name)
    ensures RouteOf(verb, Some(DownloadPrefix + name)) == DownloadImage
    ensures Basename(DownloadPrefix + name) == name
  {
    LinkPath(scheme, host, port, name);
    var path := DownloadPrefix + name;
    assert path[..|DownloadPrefix|] == DownloadPrefix;
    DownloadPathRoute(verb, Some(path));
    LinkNameResolves(name);
  }

  /** With an upload directory that does not end in '/', the file the
      converter writes for page i is exactly the path the download handler
      looks up for the name it returned. */
  lemma LinksFindWrittenFiles(s: Settings, filename: string, output: string, pages: seq<Page>, i: nat)
    requires s.converterDir == RTrimSlashes(s.uploadDir)
    requires s.uploadDir == [] || s.uploadDir[|s.uploadDir| - 1] != '/'
    requires output != Base64Mode && '/' !in filename
    requires ConversionOutcome(s.converterDir, filename, output, true, Readable(pages)).Ok?
    requires i < |pages|
    ensures FilesWritten(s.converterDir, filename, output, true, Readable(pages))[i]
      == s.uploadDir + "/" + ConversionOutcome(s.converterDir, filename, output, true, Readable(pages)).value[i]
  {
    RTrimSlashesUnique(s.uploadDir, s.uploadDir);
    FileModeWritesEveryPage(s.converterDir, filename, output, pages, i);
    EntriesAt(s.converterDir, filename, output, pages, |pages|, i);
    var name := PageFileName(filename, i, |pages|);
    if |pages| > 1 {
      PageNameHasNoSlash(filename, i);
    } else {
      assert '/' !in filename + ".png";
    }
    BasenameOfJoin(s.converterDir, name);
  }

  /** A `dpi` field holding '/' breaks that correspondence: with dpi
      "../x" the converter writes `<dir>/../x.png`, outside the upload
      directory, yet reports the name "x.png", whose link looks up
      `<dir>/x.png`, a different file. */
  lemma SlashInFilenameEscapes(dir: string, output: string, page: Page)
    requires output != Base64Mode && page.fault.None?
    ensures FilesWritten(dir, "../x", output, true, Readable([page])) == [dir + "/../x.png"]
    ensures ConversionOutcome(dir, "../x", output, true, Readable([page])) == Ok(["x.png"])
    ensures dir + "/" + "x.png" != dir + "/../x.png"
  {
    EscapedPage(dir, output, page);
    assert FirstFault([page]) == 1;
    WrittenAt(dir, "../x", 1, 1, 0);
    var written := FilesWritten(dir, "../x", output, true, Readable([page]));
    assert written == [written[0]];
    EntriesAt(dir, "../x", output, [page], 1, 0);
    var entries := ConversionOutcome(dir, "../x", output, true, Readable([page])).value;
    assert entries == [entries[0]];
  }

  /** The one page of a document converted with filename "../x" goes to
      `<dir>/../x.png` and is reported as "x.png". */
  lemma EscapedPage(dir: string, output: string, page: Page)
    requires output != Base64Mode
    ensures PagePath(dir, "../x", 0, 1) == dir + "/../x.png"
    ensures Entry(dir, "../x", output, 0, 1, page) == "x.png"
  {
    var path := PagePath(dir, "../x", 0, 1);
    assert "../x" + ".png" == "../x.png";
    assert path == dir + "/../x.png";
    assert path == (dir + "/..") + "/" + "x.png";
    BasenameOfJoin(dir + "/..", "x.png");
  }

  // -----------------------------------------------------------------------
  // Configuration
  // -----------------------------------------------------------------------

  /** Scheme, host and port fall back to "http", the bind host and the bind
      port when their variable is unset, empty or "0"; a set port is read
      with PHP's `(int)` cast. */
  lemma UrlPartsDefaulting(env: map<string, string>, sourceDir: string, host: string, port: int)
    ensures Falsy(GetEnv(env, "APP_URL_SCHEME")) ==> SettingsFrom(env, sourceDir, host, port).scheme == "http"
    ensures !Falsy(GetEnv(env, "APP_URL_SCHEME")) ==> SettingsFrom(env, sourceDir, host, port).scheme == env["APP_URL_SCHEME"]
    ensures Falsy(GetEnv(env, "APP_URL_HOST")) ==> SettingsFrom(env, sourceDir, host, port).host == host
    ensures !Falsy(GetEnv(env, "APP_URL_HOST")) ==> SettingsFrom(env, sourceDir, host, port).host == env["APP_URL_HOST"]
    ensures Falsy(GetEnv(env, "APP_URL_PORT")) ==> SettingsFrom(env, sourceDir, host, port).port == port
    ensures !Falsy(GetEnv(env, "APP_URL_PORT")) ==> SettingsFrom(env, sourceDir, host, port).port == IntCast(env["APP_URL_PORT"])
  {
  }

  /** A port written in decimal is advertised as that port; "0" is falsy,
      so APP_URL_PORT=0 advertises the bind port instead. */
  lemma AdvertisedPort(env: map<string, string>, sourceDir: string, host: string, port: int, p: int)
    requires "APP_URL_PORT" in env && env["APP_URL_PORT"] == IntToString(p)
    ensures p != 0 ==> SettingsFrom(env, sourceDir, host, port).port == p
    ensures p == 0 ==> SettingsFrom(env, sourceDir, host, port).port == port
  {
    IntCastIntToString(p);
    if p == 0 {
      assert IntToString(0) == "0";
    } else if p > 0 {
      assert IntToString(p) == NatToString(p);
      assert IntToString(p) != "0" by {
        NatToStringRoundTrip(p);
      }
    } else {
      assert IntToString(p)[0] == '-';
    }
  }

  /** The converter keeps the upload directory without trailing slashes,
      and trimming is idempotent. */
  lemma ConverterDirTrimmed(env: map<string, string>, sourceDir: string, host: string, port: int)
    ensures var d := SettingsFrom(env, sourceDir, host, port).converterDir;
      (d == [] || d[|d| - 1] != '/') && RTrimSlashes(d) == d
  {
    RTrimSlashesIdempotent(SettingsFrom(env, sourceDir, host, port).uploadDir);
  }
}
