/**
 * The HTTP request handling of the PDF-to-image service (src/server.php).
 *
 * Every request first gets four CORS headers. OPTIONS requests are answered
 * at once with 200 and an empty body. Otherwise the path selects a
 * handler: `POST /convert` validates the uploaded PDF, converts it and
 * answers with download links; any path beginning with `/download/` serves
 * a generated image by its basename; `/health` reports liveness; anything
 * else is a 404. Exceptions become JSON error replies: 400 for
 * InvalidArgumentException, 500 for every other class.
 *
 * The runtime's request and response objects, the filesystem, the
 * environment, the clock and the imaging library are inputs: a `Request`
 * value, a `Response` object, and a `World` value.
 */
module Server {
  import opened Wrappers
  import opened Php
  import Base64
  import opened Converter

  // -----------------------------------------------------------------------
  // Inputs
  // -----------------------------------------------------------------------

  /** One entry of `$request->files`: client name, temporary path, upload
      error code and size in bytes. */
  datatype Upload = Upload(name: string, tmpName: string, error: int, size: int)

  /** The parts of a request the service reads: the method, the
      `request_uri` (None when absent), the uploaded files and the form
      fields. */
  datatype Request = Request(verb: string, uri: Option<string>, files: map<string, Upload>, post: map<string, string>)

  /** What the filesystem reports for one path: its sniffed MIME type and
      its bytes. */
  datatype FileInfo = FileInfo(mime: string, content: seq<Base64.byte>)

  /** Everything outside the process the service consults: the environment
      (`getenv`), the files present per path string (`file_exists`,
      `mime_content_type`, `file_get_contents`), what the imaging library
      reads from the uploaded PDF, the loaded extensions, and `time()`. */
  datatype World = World(
    env: map<string, string>,
    disk: map<string, FileInfo>,
    uploadedPdf: Document,
    imagickLoaded: bool,
    swooleLoaded: bool,
    now: int)

  // -----------------------------------------------------------------------
  // Replies
  // -----------------------------------------------------------------------

  /** The JSON documents the service sends, field by field. */
  datatype Payload =
    | Converted(success: bool, originalName: string, pages: nat, images: seq<string>, timestamp: int)
    | HealthStatus(status: string, version: string, timestamp: int, imagick: bool, swoole: bool)
    | ErrorInfo(error: string, code: int, errorType: string, withTrace: bool)
    | EndpointMissing(error: string)

  datatype Body = Text(text: string) | Json(payload: Payload) | Bytes(content: seq<Base64.byte>)

  type Header = (string, string)

  /** What a finished response carries: the status, the headers in the order
      they were set, and the body. */
  datatype Reply = Reply(status: int, headers: seq<Header>, body: Body)

  /** The value last set for a header name, if any. */
  function HeaderValue(headers: seq<Header>, name: string): (v: Option<string>)
    ensures v.Some? <==> exists i :: 0 <= i < |headers| && headers[i].0 == name
    decreases |headers|
  {
    if headers == [] then None
    else if headers[|headers| - 1].0 == name then Some(headers[|headers| - 1].1)
    else HeaderValue(headers[..|headers| - 1], name)
  }

  /** The runtime's response object: status and headers can be set until
      `end` sends the body, and `end` is called once. */
  class Response {
    var statusCode: int
    var headers: seq<Header>
    var body: Body
    var ended: bool

    constructor ()
      ensures statusCode == 200 && headers == [] && body == Text("") && !ended
    {
      statusCode := 200;
      headers := [];
      body := Text("");
      ended := false;
    }

    /** A response as the runtime hands it to the request handler. */
    predicate IsNew()
      reads this
    {
      statusCode == 200 && headers == [] && body == Text("") && !ended
    }

    function Sent(): Reply
      reads this
    {
      Reply(statusCode, headers, body)
    }

    method Status(code: int)
      requires !ended
      modifies this
      ensures statusCode == code && headers == old(headers) && body == old(body) && !ended
    {
      statusCode := code;
    }

    method Header(name: string, value: string)
      requires !ended
      modifies this
      ensures headers == old(headers) + [(name, value)]
      ensures statusCode == old(statusCode) && body == old(body) && !ended
    {
      headers := headers + [(name, value)];
    }

    method End(content: Body)
      requires !ended
      modifies this
      ensures ended && body == content
      ensures statusCode == old(statusCode) && headers == old(headers)
    {
      body := content;
      ended := true;
    }
  }

  // -----------------------------------------------------------------------
  // Constants
  // -----------------------------------------------------------------------

  const CorsHeaders: seq<Header> := [
    ("Access-Control-Allow-Origin", "*"),
    ("Access-Control-Allow-Methods", "POST, GET, OPTIONS"),
    ("Access-Control-Allow-Headers", "Content-Type"),
    ("Access-Control-Max-Age", "86400")]

  const JsonContentType: Header := ("Content-Type", "application/json")

  const UploadErrOk := 0
  const UploadErrIniSize := 1
  const UploadErrFormSize := 2
  const UploadErrPartial := 3
  const UploadErrNoFile := 4
  const UploadErrNoTmpDir := 6
  const UploadErrCantWrite := 7
  const UploadErrExtension := 8

  /** The codes `getUploadErrorMessage` has a text for. */
  const NamedUploadErrors: set<int> := {UploadErrIniSize, UploadErrFormSize, UploadErrPartial, UploadErrNoFile,
                                         UploadErrNoTmpDir, UploadErrCantWrite, UploadErrExtension}

  const PdfMime := "application/pdf"
  const MaxUploadSize := 10 * 1024 * 1024
  const DefaultDpi := "150"
  const DefaultQuality := "90"
  const DownloadPrefix := "/download/"

  // -----------------------------------------------------------------------
  // Configuration
  // -----------------------------------------------------------------------

  /** `(int)(getenv('APP_URL_PORT') ?: $port)`: an unset, empty or "0"
      variable gives the bind port, and a port written in decimal is used
      as written. */
  function PortSetting(v: Option<string>, port: int): (p: int)
    ensures (v.None? || v.value == "" || v.value == "0") ==> p == port
    ensures forall n: int {:trigger IntToString(n)} :: v == Some(IntToString(n)) && n != 0 ==> p == n
  {
    if Falsy(v) then port
    else
      IntCastIntToStringAll();
      IntCast(v.value)
  }

  /** The server's settings as the constructor fixes them. `converterDir` is
      the converter's own, trimmed copy of the upload directory. */
  datatype Settings = Settings(uploadDir: string, converterDir: string, scheme: string, host: string, port: int)

  /** What the constructor derives from the environment and the bind address. */
  function SettingsFrom(env: map<string, string>, sourceDir: string, host: string, port: int): (s: Settings)
    ensures Falsy(GetEnv(env, "UPLOAD_DIR")) ==> s.uploadDir == sourceDir + "/uploads"
    ensures !Falsy(GetEnv(env, "UPLOAD_DIR")) ==> s.uploadDir == env["UPLOAD_DIR"]
    ensures s.converterDir == RTrimSlashes(s.uploadDir)
    ensures s.converterDir == [] || s.converterDir[|s.converterDir| - 1] != '/'
    ensures s.port == PortSetting(GetEnv(env, "APP_URL_PORT"), port)
  {
    var uploadDir := OrElse(GetEnv(env, "UPLOAD_DIR"), sourceDir + "/uploads");
    Settings(
      uploadDir,
      RTrimSlashes(uploadDir),
      OrElse(GetEnv(env, "APP_URL_SCHEME"), "http"),
      OrElse(GetEnv(env, "APP_URL_HOST"), host),
      PortSetting(GetEnv(env, "APP_URL_PORT"), port))
  }

  // -----------------------------------------------------------------------
  // Routing
  // -----------------------------------------------------------------------

  datatype Route = Preflight | ConvertUpload | DownloadImage | HealthCheck | NoEndpoint

  /** `strpos($s, $prefix) === 0`: s is prefix followed by the rest. */
  predicate StartsWith(s: string, prefix: string)
    ensures StartsWith(s, prefix) <==> |prefix| <= |s| && s == prefix + s[|prefix|..]
  {
    |prefix| <= |s| && s[..|prefix|] == prefix
  }

  /** `$request->server['request_uri'] ?? '/'`. */
  function PathOf(uri: Option<string>): (p: string)
    ensures uri.Some? ==> p == uri.value
    ensures uri.None? ==> p == "/"
  {
    if uri.Some? then uri.value else "/"
  }

  /** Which branch of `onRequest` a request takes. */
  function RouteOf(verb: string, uri: Option<string>): (r: Route)
    ensures r == Preflight <==> verb == "OPTIONS"
    ensures r == ConvertUpload <==> verb == "POST" && PathOf(uri) == "/convert"
    ensures r == DownloadImage <==> verb != "OPTIONS" && StartsWith(PathOf(uri), DownloadPrefix)
    ensures r == HealthCheck <==> verb != "OPTIONS" && PathOf(uri) == "/health"
  {
    var path := PathOf(uri);
    assert !StartsWith("/convert", DownloadPrefix);
    if verb == "OPTIONS" then Preflight
    else if path == "/convert" && verb == "POST" then ConvertUpload
    else if StartsWith(path, DownloadPrefix) then DownloadImage
    else if path == "/health" then HealthCheck
    else NoEndpoint
  }

  // -----------------------------------------------------------------------
  // Upload validation
  // -----------------------------------------------------------------------

  /** `getUploadErrorMessage`: the fixed text of each PHP upload error code. */
  function UploadErrorMessage(code: int): (m: string)
    ensures m == "Unknown upload error" <==> code !in NamedUploadErrors
  {
    if code == UploadErrIniSize then "The uploaded file exceeds the upload_max_filesize directive in php.ini"
    else if code == UploadErrFormSize then "The uploaded file exceeds the MAX_FILE_SIZE directive that was specified in the HTML form"
    else if code == UploadErrPartial then "The uploaded file was only partially uploaded"
    else if code == UploadErrNoFile then "No file was uploaded"
    else if code == UploadErrNoTmpDir then "Missing a temporary folder"
    else if code == UploadErrCantWrite then "Failed to write file to disk"
    else if code == UploadErrExtension then "A PHP extension stopped the file upload"
    else "Unknown upload error"
  }

  /** `mime_content_type($path)`: None where PHP returns false. */
  function MimeOf(disk: map<string, FileInfo>, path: string): (r: Option<string>)
    ensures r.Some? <==> path in disk
    ensures r.Some? ==> r.value == disk[path].mime
  {
    if path in disk then Some(disk[path].mime) else None
  }

  /** The checks at the top of `handleConvertRequest`, in source order; the
      first that fails decides the exception. */
  function ValidateUpload(files: map<string, Upload>, disk: map<string, FileInfo>): (r: Result<Upload, Exception>)
    ensures r.Ok? <==>
      && "pdf_file" in files
      && files["pdf_file"].error == UploadErrOk
      && MimeOf(disk, files["pdf_file"].tmpName) == Some(PdfMime)
      && files["pdf_file"].size <= MaxUploadSize
    ensures r.Ok? ==> r.value == files["pdf_file"]
  {
    if "pdf_file" !in files then Err(InvalidArgument("No PDF file uploaded"))
    else
      var upload := files["pdf_file"];
      if upload.error != UploadErrOk then Err(Runtime("File upload error: " + UploadErrorMessage(upload.error)))
      else if MimeOf(disk, upload.tmpName) != Some(PdfMime) then Err(InvalidArgument("Invalid file type. Only PDF files are allowed"))
      else if upload.size > MaxUploadSize then
        Err(InvalidArgument("File too large. Maximum size is " + IntToString(MaxUploadSize / 1024 / 1024) + "MB"))
      else Ok(upload)
  }

  // -----------------------------------------------------------------------
  // Reply construction
  // -----------------------------------------------------------------------

  /** `$request->post[key] ?? fallback`. */
  function PostField(post: map<string, string>, key: string, fallback: string): (r: string)
    ensures key in post ==> r == post[key]
    ensures key !in post ==> r == fallback
  {
    if key in post then post[key] else fallback
  }

  /** `sprintf('%s://%s:%d/download/', scheme, host, port)`. */
  function BaseUrl(scheme: string, host: string, port: int): (u: string)
    ensures |u| >= |scheme| + |DownloadPrefix| && u[..|scheme|] == scheme
    ensures u[|u| - |DownloadPrefix|..] == DownloadPrefix
  {
    scheme + "://" + host + ":" + IntToString(port) + DownloadPrefix
  }

  /** `array_map(fn($img) => $baseUrl . $img, $result)`. */
  function Prefixed(baseUrl: string, names: seq<string>): (links: seq<string>)
    ensures |links| == |names|
    ensures forall i :: 0 <= i < |names| ==>
      |links[i]| == |baseUrl| + |names[i]| && links[i][..|baseUrl|] == baseUrl && links[i][|baseUrl|..] == names[i]
  {
    seq(|names|, i requires 0 <= i < |names| => baseUrl + names[i])
  }

  /** `$e instanceof InvalidArgumentException ? 400 : 500`. */
  function ErrorStatus(e: Exception): (status: int)
    ensures status == 400 <==> e.kind == InvalidArgumentException
    ensures status == 400 || status == 500
  {
    if e.kind == InvalidArgumentException then 400 else 500
  }

  /** The error document of `handleError`; the trace is attached only when
      APP_ENV is exactly "development". */
  function ErrorPayload(e: Exception, env: map<string, string>): (p: Payload)
    ensures p.ErrorInfo? && p.error == e.message && p.code == e.code && p.errorType == ClassName(e.kind)
    ensures p.withTrace <==> "APP_ENV" in env && env["APP_ENV"] == "development"
  {
    ErrorInfo(e.message, e.code, ClassName(e.kind), GetEnv(env, "APP_ENV") == Some("development"))
  }

  /** The reply `handleError` completes, after the CORS headers. */
  function ErrorReply(e: Exception, env: map<string, string>): (r: Reply)
    ensures r.status == 400 <==> e.kind == InvalidArgumentException
    ensures r.status == 400 || r.status == 500
    ensures r.headers == CorsHeaders + [JsonContentType]
    ensures r.body == Json(ErrorPayload(e, env))
  {
    Reply(ErrorStatus(e), CorsHeaders + [JsonContentType], Json(ErrorPayload(e, env)))
  }

  /** The reply to `POST /convert`. The converter is called with the `dpi`
      field (default 150) as its file name and the `quality` field (default
      90) as its output mode. */
  function ConvertReply(s: Settings, request: Request, world: World): (r: Reply)
    ensures r.headers == CorsHeaders + [JsonContentType]
    ensures r.status == 200 || r.status == 400 || r.status == 500
    ensures r.status == 200 <==>
      && ValidateUpload(request.files, world.disk).Ok?
      && ConversionOutcome(s.converterDir, PostField(request.post, "dpi", DefaultDpi),
           PostField(request.post, "quality", DefaultQuality), world.imagickLoaded, world.uploadedPdf).Ok?
    ensures r.body.Json? && (r.status == 200 ==> r.body.payload.Converted?) && (r.status != 200 ==> r.body.payload.ErrorInfo?)
  {
    match ValidateUpload(request.files, world.disk)
    case Err(e) => ErrorReply(e, world.env)
    case Ok(upload) =>
      var filename := PostField(request.post, "dpi", DefaultDpi);
      var output := PostField(request.post, "quality", DefaultQuality);
      match ConversionOutcome(s.converterDir, filename, output, world.imagickLoaded, world.uploadedPdf)
      case Err(e) => ErrorReply(e, world.env)
      case Ok(result) =>
        var payload := Converted(true, upload.name, |result|, Prefixed(BaseUrl(s.scheme, s.host, s.port), result), world.now);
        Reply(200, CorsHeaders + [JsonContentType], Json(payload))
  }

  /** The reply to a `/download/...` request. */
  function DownloadReply(uploadDir: string, uri: string, disk: map<string, FileInfo>): (r: Reply)
    ensures r.status == 200 || r.status == 404
    ensures r.status == 200 <==> uploadDir + "/" + Basename(uri) in disk
    ensures r.status == 200 ==> r.body == Bytes(disk[uploadDir + "/" + Basename(uri)].content)
    ensures |r.headers| >= |CorsHeaders| && r.headers[..|CorsHeaders|] == CorsHeaders
  {
    var filename := Basename(uri);
    var filePath := uploadDir + "/" + filename;
    if filePath !in disk then Reply(404, CorsHeaders, Text("Image not found"))
    else
      CorsPrefix3(("Content-Type", disk[filePath].mime),
                  ("Content-Disposition", "inline; filename=\"" + Basename(filePath) + "\""),
                  ("Cache-Control", "public, max-age=86400"));
      Reply(200,
        CorsHeaders
          + [("Content-Type", disk[filePath].mime)]
          + [("Content-Disposition", "inline; filename=\"" + Basename(filePath) + "\"")]
          + [("Cache-Control", "public, max-age=86400")],
        Bytes(disk[filePath].content))
  }

  lemma CorsPrefix(extra: seq<Header>)
    ensures (CorsHeaders + extra)[..4] == CorsHeaders
  {
  }

  lemma CorsPrefix3(a: Header, b: Header, c: Header)
    ensures (CorsHeaders + [a] + [b] + [c])[..4] == CorsHeaders
  {
    var h := CorsHeaders + [a] + [b] + [c];
    assert forall k :: 0 <= k < 4 ==> h[k] == CorsHeaders[k];
  }

  /** The reply to `/health`. */
  function HealthReply(world: World): (r: Reply)
    ensures r.status == 200 && r.headers == CorsHeaders + [JsonContentType]
    ensures r.body.Json? && r.body.payload.HealthStatus? && r.body.payload.status == "ok"
    ensures r.body.payload.imagick == world.imagickLoaded && r.body.payload.swoole == world.swooleLoaded
  {
    Reply(200, CorsHeaders + [JsonContentType],
      Json(HealthStatus("ok", "1.0", world.now, world.imagickLoaded, world.swooleLoaded)))
  }

  /** The reply to any request. */
  function ReplyTo(s: Settings, request: Request, world: World): (r: Reply)
    ensures r.status == 200 || r.status == 400 || r.status == 404 || r.status == 500
    ensures |r.headers| >= |CorsHeaders| && r.headers[..|CorsHeaders|] == CorsHeaders
  {
    match RouteOf(request.verb, request.uri)
    case Preflight => Reply(200, CorsHeaders, Text(""))
    case ConvertUpload => ConvertReply(s, request, world)
    case DownloadImage => DownloadReply(s.uploadDir, PathOf(request.uri), world.disk)
    case HealthCheck => HealthReply(world)
    case NoEndpoint => Reply(404, CorsHeaders, Json(EndpointMissing("Endpoint not found")))
  }

  // -----------------------------------------------------------------------
  // The server
  // -----------------------------------------------------------------------

  class PdfImageServer {
    const converter: PdfConverter
    const uploadDir: string
    const appUrlScheme: string
    const appUrlHost: string
    const appUrlPort: int

    /** `new PdfImageServer($host, $port)`: `sourceDir` is the directory of
        the script (`__DIR__`); binding the socket is not modelled. */
    constructor (env: map<string, string>, sourceDir: string, host: string, port: int)
      ensures Config() == SettingsFrom(env, sourceDir, host, port)
    {
      var s := SettingsFrom(env, sourceDir, host, port);
      uploadDir := s.uploadDir;
      converter := new PdfConverter(s.uploadDir);
      appUrlScheme := s.scheme;
      appUrlHost := s.host;
      appUrlPort := s.port;
    }

    function Config(): Settings
    {
      Settings(uploadDir, converter.uploadDir, appUrlScheme, appUrlHost, appUrlPort)
    }

    /** `onRequest`: the response ends exactly once, with the reply
        `ReplyTo` describes. */
    method OnRequest(request: Request, response: Response, world: World)
      requires response.IsNew()
      modifies response
      ensures response.ended
      ensures response.Sent() == ReplyTo(Config(), request, world)
    {
      SetCorsHeaders(response);

      if request.verb == "OPTIONS" {
        response.Status(200);
        response.End(Text(""));
        return;
      }

      var path := PathOf(request.uri);
      if path == "/convert" && request.verb == "POST" {
        var thrown := HandleConvertRequest(request, response, world);
        if thrown.Some? {
          HandleError(response, thrown.value, world.env);
        }
      } else if StartsWith(path, DownloadPrefix) {
        HandleDownloadRequest(path, response, world);
      } else if path == "/health" {
        HandleHealthCheck(response, world);
      } else {
        response.Status(404);
        response.End(Json(EndpointMissing("Endpoint not found")));
      }
    }

    /** `setCorsHeaders`. */
    method SetCorsHeaders(response: Response)
      requires !response.ended
      modifies response
      ensures response.headers == old(response.headers) + CorsHeaders
      ensures response.statusCode == old(response.statusCode) && response.body == old(response.body)
      ensures !response.ended
    {
      response.Header("Access-Control-Allow-Origin", "*");
      response.Header("Access-Control-Allow-Methods", "POST, GET, OPTIONS");
      response.Header("Access-Control-Allow-Headers", "Content-Type");
      response.Header("Access-Control-Max-Age", "86400");
    }

    /** `handleConvertRequest`: a failed check is thrown (returned here)
        before the response is touched; otherwise the conversion runs and
        its outcome, success or failure, ends the response. */
    method HandleConvertRequest(request: Request, response: Response, world: World) returns (thrown: Option<Exception>)
      requires response.Sent() == Reply(200, CorsHeaders, Text("")) && !response.ended
      modifies response
      ensures thrown.Some? ==> ValidateUpload(request.files, world.disk) == Err(thrown.value)
      ensures thrown.Some? ==> response.Sent() == old(response.Sent()) && !response.ended
      ensures thrown.None? ==> response.ended && response.Sent() == ConvertReply(Config(), request, world)
    {
      var validated := ValidateUpload(request.files, world.disk);
      if validated.Err? {
        return Some(validated.error);
      }
      ConvertUploaded(validated.value, request, response, world);
      thrown := None;
    }

    /** The body of the coroutine `handleConvertRequest` starts. */
    method ConvertUploaded(upload: Upload, request: Request, response: Response, world: World)
      requires ValidateUpload(request.files, world.disk) == Ok(upload)
      requires response.Sent() == Reply(200, CorsHeaders, Text("")) && !response.ended
      modifies response
      ensures response.ended && response.Sent() == ConvertReply(Config(), request, world)
    {
      var result, _ := converter.ConvertToImages(
        upload.tmpName,
        PostField(request.post, "dpi", DefaultDpi),
        PostField(request.post, "quality", DefaultQuality),
        world.imagickLoaded,
        world.uploadedPdf);
      if result.Err? {
        HandleError(response, result.error, world.env);
        return;
      }
      var baseUrl := BaseUrl(appUrlScheme, appUrlHost, appUrlPort);
      var payload := Converted(true, upload.name, |result.value|, Prefixed(baseUrl, result.value), world.now);
      response.Header("Content-Type", "application/json");
      response.End(Json(payload));
    }

    /** `handleDownloadRequest`. */
    method HandleDownloadRequest(uri: string, response: Response, world: World)
      requires response.Sent() == Reply(200, CorsHeaders, Text("")) && !response.ended
      modifies response
      ensures response.ended && response.Sent() == DownloadReply(uploadDir, uri, world.disk)
    {
      var filename := Basename(uri);
      var filePath := uploadDir + "/" + filename;
      if filePath !in world.disk {
        response.Status(404);
        response.End(Text("Image not found"));
        return;
      }
      var file := world.disk[filePath];
      var contentType := ("Content-Type", file.mime);
      var disposition := ("Content-Disposition", "inline; filename=\"" + Basename(filePath) + "\"");
      var caching := ("Cache-Control", "public, max-age=86400");
      response.Header(contentType.0, contentType.1);
      response.Header(disposition.0, disposition.1);
      response.Header(caching.0, caching.1);
      response.End(Bytes(file.content));
    }

    /** `handleHealthCheck`. */
    method HandleHealthCheck(response: Response, world: World)
      requires response.Sent() == Reply(200, CorsHeaders, Text("")) && !response.ended
      modifies response
      ensures response.ended && response.Sent() == HealthReply(world)
    {
      response.Header("Content-Type", "application/json");
      response.End(Json(HealthStatus("ok", "1.0", world.now, world.imagickLoaded, world.swooleLoaded)));
    }

    /** `handleError`. */
    method HandleError(response: Response, e: Exception, env: map<string, string>)
      requires response.Sent() == Reply(200, CorsHeaders, Text("")) && !response.ended
      modifies response
      ensures response.ended && response.Sent() == ErrorReply(e, env)
    {
      response.Status(ErrorStatus(e));
      response.Header("Content-Type", "application/json");
      response.End(Json(ErrorPayload(e, env)));
    }
  }
}
