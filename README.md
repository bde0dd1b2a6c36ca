# PDF-to-image service: a Dafny model

This project models the request handling of a small HTTP service that turns
uploaded PDF documents into PNG images and serves them back. It also models
the PDF converter the service calls.

- `POST /convert` checks the uploaded file in this order: present, no upload
  error, sniffed type `application/pdf`, at most 10 MiB. It then converts the
  pages and answers with a JSON document. That document gives the client's
  file name, the page count and one download link per page.
- `/download/<name>` serves `<upload dir>/<basename of the path>` with its
  sniffed type. The reply has an inline disposition and a one-day cache
  header, or it is a 404 "Image not found".
- `/health` reports `ok`, the version and the loaded extensions.
- In the request handler `onRequest`, `OPTIONS` on any path is a bare 200,
  and every other request is a 404 JSON error.
- Every reply of `onRequest` starts with the same four CORS headers. Files
  that the runtime's static file handler serves from the upload directory
  do not pass through `onRequest`.
- An exception becomes a JSON error. The status is 400 for
  `InvalidArgumentException` and 500 for everything else. The body holds the
  message, the code and the class name. A trace is attached only when
  `APP_ENV` is exactly `development`.
- The converter keeps its directory with trailing slashes trimmed. In
  `"base64"` mode it returns the base64 of each page's PNG. In any other mode
  it writes `<filename>.png` for a one-page document, or `<filename>-<i>.png`
  for each page of a longer one, and returns the basenames.

Files:

- `wrappers.dfy`: `Option` and `Result`.
- `php.dfy`: the PHP runtime behaviour the service relies on. This covers
  `rtrim($s, '/')`, POSIX `basename`, `%d` rendering, the `(int)` cast of a
  string, `?:` truthiness of `getenv`, and the two exception classes.
- `base64.dfy`: `base64_encode` as section 4 of RFC 4648 defines it, and a
  decoder that is its inverse.
- `pdf_converter.dfy`: the class `PdfConverter`. `ConvertToImages` keeps the
  source's loop and is proved against the specification function
  `ConversionOutcome`.
- `server.dfy`: the runtime's `Response` object as a class, and the
  `PdfImageServer` class with its handlers as methods. `OnRequest` is proved
  to end the response exactly once, with the reply the pure function
  `ReplyTo` describes.
- `server_properties.dfy`: what the service promises, proved about `ReplyTo`
  and its parts.

The model follows the code as written:

- The converter is called with the `dpi` form field (default 150) as its file
  name. It gets the `quality` field (default 90) as its output mode.
- Without those fields, every upload therefore writes `150.png` or
  `150-<i>.png`.
- The `output` field is never read.
- `quality=base64` returns base64 text behind the download base URL.
- `original_name` is echoed as the client sent it.
- A `dpi` holding '/' makes the converter write somewhere other than
  `<dir>/<reported name>`: outside the directory for `../x`, into a
  subdirectory for `sub/x`.

## Model

| member | source | states |
|---|---|---|
| Php.RTrimSlashes | src/PdfConverter.php:9 | the result is the longest prefix that does not end in '/', and only '/' characters were removed |
| Php.RTrimSlashesUnique | src/PdfConverter.php:9 | the three properties of `rtrim` fix its result uniquely |
| Php.RTrimSlashesIdempotent | src/PdfConverter.php:9 | trimming a trimmed directory changes nothing |
| Php.LastComponent | src/server.php:177 | the result has no '/', is a suffix of the input, and is preceded by '/' or is the whole input |
| Php.Basename | src/server.php:177 | `basename` never returns a string holding '/' |
| Php.BasenameOfJoin | src/PdfConverter.php:35-40 | `basename(dir . '/' . name)` is `name` for every directory when `name` is one non-empty component |
| Php.BasenameNonEmpty | src/server.php:177 | a path with any character other than '/' has a non-empty basename |
| Php.NatToString | src/PdfConverter.php:37 | the rendering of a page index is non-empty decimal digits with no leading zero |
| Php.NatToStringRoundTrip | src/PdfConverter.php:37 | reading the digits back gives the number |
| Php.NatToStringInjective | src/PdfConverter.php:37 | distinct indices render differently |
| Php.SkipSpaces | src/server.php:28 | the `(int)` cast drops exactly the leading whitespace |
| Php.LeadingDigits | src/server.php:28 | the `(int)` cast reads the longest run of leading digits |
| Php.IntCast | src/server.php:28 | the `(int)` cast is negative only after a leading '-', and 0 when no sign or digit follows the whitespace |
| Php.IntToString | src/server.php:147-152 | `%d` writes a non-empty string that starts with '-' iff the integer is negative, with only digits after that sign and no '/'; `IntCastIntToString` reads it back |
| Php.GetEnv | src/server.php:21-28 | `getenv` finds a value iff the variable is set, and then it is the variable's value |
| Php.Falsy | src/server.php:21-28 | the falsy results of `getenv` are false, "" and "0"; any value of two or more characters is truthy |
| Php.OrElse | src/server.php:21-28 | `?:` gives the fallback for a falsy value and the value otherwise, so a truthy fallback always gives a truthy result |
| Php.ClassName | src/server.php:220 | `get_class` names "RuntimeException" exactly for a RuntimeException and "InvalidArgumentException" exactly for an InvalidArgumentException |
| Php.IntCastIntToString | src/server.php:28 | `(int)` reads back any integer that `%d` writes |
| Base64.Encode | src/PdfConverter.php:33 | `base64_encode` gives 4 characters per started group of 3 bytes, all from the alphabet or '=' |
| Base64.EncodeTestVectors | src/PdfConverter.php:33 | the encoding agrees with the test vectors of section 10 of RFC 4648 ("Zg==", "Zm8=", "Zm9v", "Zm9vYmFy") and maps [255, 254, 253] to "//79" |
| Base64.DecodeEncode | src/PdfConverter.php:33 | decoding the encoding of any bytes gives the bytes back |
| Base64.EncodeInjective | src/PdfConverter.php:33 | different page images never share an encoding |
| Converter.PageFileName | src/PdfConverter.php:35-37 | the file name of a page starts with the filename, ends in ".png", and holds no '/' when the filename holds none |
| Converter.PagePath | src/PdfConverter.php:35-37 | the path string starts with `<dir>/`, and its basename is the page's file name when the filename holds no '/' |
| Converter.Entry | src/PdfConverter.php:31-40 | a base64 entry decodes back to the page's bytes; a file entry holds no '/', and is the page's file name when the filename holds no '/' |
| Converter.ConversionOutcome | src/PdfConverter.php:16-52 | success only with imagick loaded and a readable PDF, with one entry per page; every failure is a RuntimeException |
| Converter.FilesWritten | src/PdfConverter.php:16-52 | files are written only with imagick loaded, a readable PDF and a mode other than "base64"; at most one per page, and one per page on success |
| Converter.Build | src/PdfConverter.php:21-42 | the list of the first k values, one per page, so far in order |
| Converter.BuildAt | src/PdfConverter.php:30-42 | value j of the list is the value for page j |
| Converter.Entries | src/PdfConverter.php:30-42 | one entry per page processed so far |
| Converter.EntriesSnoc | src/PdfConverter.php:33 | processing one more page appends its entry at the end (`$outputImages[] = ...`) |
| Converter.WrittenSnoc | src/PdfConverter.php:39 | processing one more page in file mode appends its path at the end |
| Converter.Written | src/PdfConverter.php:35-39 | one written path per page processed so far |
| Converter.FirstFault | src/PdfConverter.php:30-51 | the index of the first failing page: none fails before it, and it fails when it is a page |
| Converter.PdfConverter.constructor | src/PdfConverter.php:7-9 | the stored directory is `rtrim($uploadDir, '/')` and does not end in '/' |
| Converter.PdfConverter.ConvertPages | src/PdfConverter.php:30-51 | the page loop over a readable PDF returns or throws exactly `ConversionOutcome` and writes exactly `FilesWritten` |
| Converter.Base64PageStep | src/PdfConverter.php:31-33 | a base64 page appends the encoding of its bytes to the entries |
| Converter.FilePageStep | src/PdfConverter.php:34-40 | a file-mode page appends the basename of its path to the entries and the path to the written files |
| Converter.PdfConverter.ConvertToImages | src/PdfConverter.php:16-52 | the loop returns or throws exactly `ConversionOutcome` and writes exactly `FilesWritten` |
| Converter.EntriesAt | src/PdfConverter.php:30-42 | entry j is the entry of page j, in page order |
| Converter.WrittenAt | src/PdfConverter.php:35-39 | written path j is the path of page j |
| Converter.OneEntryPerPage | src/PdfConverter.php:18-47 | success iff imagick is loaded, the PDF reads and no page fails; then one entry per page |
| Converter.FailuresAreRuntimeExceptions | src/PdfConverter.php:18-51 | every failure is a RuntimeException: the fixed missing-extension message, or "PDF conversion failed: " and the message of the first failing page; nothing is written when the extension is missing or the PDF does not read |
| Converter.Base64ModeEntries | src/PdfConverter.php:31-33 | in "base64" mode entry i is the encoding of page i and decodes back to it, and no file is written |
| Converter.FileModeWritesEveryPage | src/PdfConverter.php:34-39 | any other mode, "blob" included, writes one file per page, in order, under the trimmed directory |
| Converter.FileModeEntriesAreBasenames | src/PdfConverter.php:40 | each file-mode entry is the basename of the file written for it and holds no '/' |
| Converter.FileEntryIsName | src/PdfConverter.php:35-40 | in file mode the entry of a page is the name of its file when the filename holds no '/' |
| Converter.SinglePageName | src/PdfConverter.php:35 | when the filename holds no '/', a one-page document gives exactly `[<filename>.png]` |
| Converter.PageNameHasNoSlash | src/PdfConverter.php:37 | `<filename>-<i>.png` is one path component when the filename is |
| Converter.MultiPageNames | src/PdfConverter.php:36-37 | when the filename holds no '/', with more than one page, entry i is `<filename>-<i>.png` |
| Converter.PagePathsDistinct | src/PdfConverter.php:36-39 | no two pages of one document are written to the same path |
| Server.HeaderValue | src/server.php:189-194 | a header value is found iff a header of that name was set |
| Server.Response.constructor | src/server.php:73 | a fresh response has status 200, no headers and an empty body, and is not ended |
| Server.Response.Status | src/server.php:80 | only the status changes |
| Server.Response.Header | src/server.php:166 | the header is appended and nothing else changes |
| Server.Response.End | src/server.php:81 | the body is sent and the response is ended, and it cannot be ended again |
| Server.UploadErrorMessage | src/server.php:240-253 | the text is "Unknown upload error" exactly for codes outside the seven named ones |
| Server.PortSetting | src/server.php:28 | an unset, empty or "0" APP_URL_PORT gives the bind port; a port written in decimal is used as written |
| Server.SettingsFrom | src/server.php:19-28 | UPLOAD_DIR falls back to `<source dir>/uploads`; the converter's directory is its `rtrim` and ends in no '/'; the port follows `PortSetting` |
| Server.PathOf | src/server.php:87 | the path is the request URI when it is set, and "/" when it is not |
| Server.StartsWith | src/server.php:91 | `strpos($s, $prefix) === 0` holds iff s is the prefix followed by the rest of s |
| Server.RouteOf | src/server.php:79-98 | OPTIONS iff preflight; the upload route iff POST on `/convert`; a download iff the path starts with `/download/` and the method is not OPTIONS; health iff the path is `/health` and the method is not OPTIONS |
| Server.ReplyTo | src/server.php:73-102 | every reply of `onRequest` has status 200, 400, 404 or 500 and starts with the four CORS headers |
| Server.ConvertReply | src/server.php:104-172 | CORS and JSON headers; 200 iff the upload validates and converts, with the converted document; otherwise 400 or 500 with an error document |
| Server.DownloadReply | src/server.php:175-196 | 200 iff `<upload dir>/<basename>` exists, then with its bytes; otherwise 404; the CORS headers come first |
| Server.HealthReply | src/server.php:198-212 | 200 with JSON headers, status "ok", and the imagick and swoole extension flags as loaded |
| Server.ErrorPayload | src/server.php:217-225 | the error document carries the message, code and class name, and a trace iff APP_ENV is "development" |
| Server.ErrorReply | src/server.php:214-230 | 400 iff InvalidArgumentException, otherwise 500, with the JSON headers and the error document |
| Server.BaseUrl | src/server.php:147-152 | the base URL starts with the scheme and ends with `/download/` |
| Server.Prefixed | src/server.php:159-162 | one link per entry, in order, each the base URL followed by exactly that entry |
| Server.MimeOf | src/server.php:122 | `mime_content_type` gives a type iff the file exists, and then it is the file's sniffed type |
| Server.PostField | src/server.php:142-143 | `$request->post[key] ?? fallback` is the posted value when the field was sent, even an empty one, and the fallback otherwise |
| Server.ValidateUpload | src/server.php:107-135 | the upload passes iff it is present, error-free, sniffed as PDF and at most 10 MiB; then it is the uploaded file |
| Server.ErrorStatus | src/server.php:216 | 400 iff InvalidArgumentException, otherwise 500 |
| Server.PdfImageServer.constructor | src/server.php:19-28 | the settings are those `SettingsFrom` derives from the environment and the bind address |
| Server.PdfImageServer.OnRequest | src/server.php:73-102 | the response ends exactly once, with the reply `ReplyTo` gives for the request |
| Server.PdfImageServer.SetCorsHeaders | src/server.php:232-238 | the four CORS headers are appended in order |
| Server.PdfImageServer.HandleConvertRequest | src/server.php:104-173 | a failed check is thrown before the response is touched; otherwise the response ends with `ConvertReply` |
| Server.PdfImageServer.ConvertUploaded | src/server.php:138-172 | the coroutine ends the response with the success payload or the converter's error |
| Server.PdfImageServer.HandleDownloadRequest | src/server.php:175-196 | the response ends with `DownloadReply` for the request path |
| Server.PdfImageServer.HandleHealthCheck | src/server.php:198-212 | the response ends with the health document |
| Server.PdfImageServer.HandleError | src/server.php:214-230 | the response ends with `ErrorReply` |
| ServerProperties.ConvertReplyHeaders | src/server.php:166 | the upload route, success or failure, sends the CORS headers and then a JSON content type |
| ServerProperties.DownloadReplyHeaders | src/server.php:180-195 | a download reply, found or not, starts with the CORS headers |
| ServerProperties.CorsHeadersFirst | src/server.php:76 | every reply of `onRequest`, on every route, begins with the four CORS headers |
| ServerProperties.PreflightAnyPath | src/server.php:79-83 | OPTIONS on any path is 200 with the CORS headers and an empty body |
| ServerProperties.ConvertNeedsPost | src/server.php:89 | `/convert` with a method other than POST is a 404 |
| ServerProperties.DownloadAnyMethod | src/server.php:91-92 | any path starting with `/download/` is a download, for every method but OPTIONS |
| ServerProperties.HealthAlwaysOk | src/server.php:93-94 | `/health` is 200 with status "ok" and reports whether imagick is loaded |
| ServerProperties.OtherPathsNotFound | src/server.php:95-98 | every other request that reaches `onRequest` is a 404 with "Endpoint not found" |
| ServerProperties.ValidationOrder | src/server.php:107-135 | the checks run in order and the first failure decides the exception and its message, including "Maximum size is 10MB" |
| ServerProperties.SizeBoundary | src/server.php:130-131 | exactly 10485760 bytes pass; 10485761 is an InvalidArgumentException |
| ServerProperties.NonPdfRejected | src/server.php:122-127 | a non-PDF type is a 400, whatever the name and size |
| ServerProperties.UploadErrorMessages | src/server.php:240-253 | two codes share a text exactly when they are equal or both outside the seven named codes; code 3's text, and code 5 is "Unknown upload error" |
| ServerProperties.ErrorClassification | src/server.php:214-230 | the status is 400 or 500 by class; the body has message, code and class name; the trace is present iff APP_ENV is "development" |
| ServerProperties.RejectedUploadNotConverted | src/server.php:104-136 | a rejected upload answers with its validation error, whatever the PDF holds |
| ServerProperties.SuccessPayload | src/server.php:147-167 | success is 200 with the client's name as given, the page count, and each entry behind `scheme://host:port/download/` |
| ServerProperties.ConversionFailureIs500 | src/server.php:169-171 | a conversion failure answers 500 with `handleError`'s reply for the converter's RuntimeException |
| ServerProperties.DefaultFieldsName150 | src/server.php:140-144 | without dpi and quality fields, a readable one-page PDF converts to the single entry `150.png` |
| ServerProperties.QualityBase64PrefixesEncodings | src/server.php:143 | `quality=base64` puts each page's base64 text behind the download base URL |
| ServerProperties.OutputFieldIgnored | src/server.php:140-144 | the `output` form field never changes the reply |
| ServerProperties.DownloadNameIsOneComponent | src/server.php:177 | the served name for a download path is non-empty and holds no '/' |
| ServerProperties.DotDotNameResolves | src/server.php:177-178 | `/download/..` resolves to the name "..", the parent of the upload directory |
| ServerProperties.DownloadMissing | src/server.php:180-184 | a missing file is a 404 "Image not found" |
| ServerProperties.DownloadFound | src/server.php:186-195 | an existing file is 200 with its bytes, its type, an inline disposition naming it, and a one-day cache |
| ServerProperties.LinkNameResolves | src/server.php:177 | the basename of `/download/<name>` is `<name>` for a one-component name |
| ServerProperties.ImageLinksAreServed | src/server.php:147-152 | a link built from an image name routes to the download handler, which resolves the same name |
| ServerProperties.LinksFindWrittenFiles | src/PdfConverter.php:35-40 | with an upload directory not ending in '/' and a `dpi` filename holding no '/', the download handler looks up exactly the file the converter wrote |
| ServerProperties.SlashInFilenameEscapes | src/server.php:142 | with `dpi` "../x" the converter writes `<dir>/../x.png` but reports "x.png", whose link looks up `<dir>/x.png` |
| ServerProperties.UrlPartsDefaulting | src/server.php:26-28 | scheme, host and port fall back when the variable is unset, "" or "0"; a set port goes through `(int)` |
| ServerProperties.AdvertisedPort | src/server.php:28 | a decimal APP_URL_PORT is advertised as written, except "0", which gives the bind port |
| ServerProperties.ConverterDirTrimmed | src/server.php:21-22 | the converter's directory never ends in '/' and trimming it again changes nothing |

## Left out

- Server start-up is not modelled. This covers binding the socket, the worker settings, `onStart` and `onWorkerStart` with their log lines, the directory creation in both constructors (`mkdir`/`is_dir`), and `start`.
- The coroutine runs sequentially inside the request handler. Concurrency between requests is not modelled.
- Imagick is not modelled. What it reads from a PDF is an input `Document`, and each failure is a reason string. Resolution and compression settings, `clear` and `destroy` are not modelled.
- The filesystem is a map from path strings to a sniffed type and the bytes. Paths are not normalised, so `dir//x.png` and `dir/x.png` are different keys.
- LinksFindWrittenFiles: requires an upload directory without a trailing '/'. With one, the model cannot show that the real filesystem finds the file through the doubled slash.
- LinksFindWrittenFiles: also requires a `dpi` filename without '/'. The source accepts any `dpi`, and with a '/' in it the link and the written file differ (SlashInFilenameEscapes).
- The runtime's static file handler (`enable_static_handler` with the upload directory as `document_root`) is not modelled. It answers requests for files in the upload directory without passing through `onRequest`, so without the CORS headers and without its 404.
- JSON text is not modelled. Replies carry typed payloads, so a `json_encode` failure on invalid UTF-8 is not modelled.
- ErrorClassification: the trace's contents are not modelled, only whether one is attached.
- `empty($request->files['pdf_file'])` is modelled as a missing key. A present but empty entry is not modelled.
- The `(int)` cast ignores exponent and hexadecimal forms and integer overflow.
- Header names are compared exactly. Case-insensitive header handling by the runtime is not modelled.
- Only the two exception classes the service throws are modelled. Other throwables are not.
- `getImageContent` is not part of this model, because no request path calls it.
- Response.End: calling it on an ended response is a precondition violation here. The runtime would ignore the call.
- The timestamp is an input to the model, not read from a clock.
