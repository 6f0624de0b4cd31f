/**
 The request handler (`httpAPI`): `PUT /upload` runs the upload and answers
 with its status and that status's text; any other path but `/` is not
 found; `/` with any method gets the greeting.
 */
module Http {
  import opened Libraries
  import opened HexName
  import opened ZipCheck
  import opened Upload

  const UPLOAD_PATH := "/upload"
  const ROOT_PATH := "/"
  const METHOD_PUT := "PUT"
  const GREETING := "Welcome to the home page!"
  /** The body `http.NotFound` writes. */
  const NOT_FOUND_BODY := "404 page not found\n"

  datatype Request = Request(path: string, httpMethod: string, body: Bytes)

  /**
   A written response, or `Aborted`: the server recovers a panic in the
   handler and drops the connection without an answer.
   */
  datatype Response = Response(status: int, body: string) | Aborted

  datatype RouteKind = UploadRoute | NotFoundRoute | HomeRoute

  /** The text `http.StatusText` gives for the codes this handler can answer with. */
  function StatusText(code: int): string {
    if code == 200 then "OK"
    else if code == 400 then "Bad Request"
    else if code == 404 then "Not Found"
    else if code == 500 then "Internal Server Error"
    else ""
  }

  /** Which branch of `httpAPI` a request takes. */
  function Route(path: string, httpMethod: string): (r: RouteKind)
    ensures r == UploadRoute <==> path == UPLOAD_PATH && httpMethod == METHOD_PUT
    ensures r == HomeRoute <==> path == ROOT_PATH
    ensures r == NotFoundRoute <==> path != ROOT_PATH && !(path == UPLOAD_PATH && httpMethod == METHOD_PUT)
  {
    if path == UPLOAD_PATH && httpMethod == METHOD_PUT then UploadRoute
    else if path != ROOT_PATH then NotFoundRoute
    else HomeRoute
  }

  /**
   The answer to an upload: nil becomes 200, an `apiError` its own status;
   the body is the status text. A panic leaves no answer.
   */
  function UploadResponse(r: UploadResult): (resp: Response)
    ensures resp.Aborted? <==> r.Panicked?
    ensures resp.Response? ==> resp.body == StatusText(resp.status)
    ensures r.Stored? ==> resp == Response(200, "OK")
    ensures r.Failed? ==> resp.Response? && resp.status == r.apiError.status
  {
    match r
    case Stored => Response(200, StatusText(200))
    case Failed(e) => Response(e.status, StatusText(e.status))
    case Panicked => Aborted
  }

  /**
   One request against a data directory: the response and the directory
   after it. The handler answers only 200, 400, 404 or 500; a path it does
   not serve gets `http.NotFound`'s answer and `/` the greeting.
   */
  function Serve(libs: Libraries, appId: string, files: Directory, req: Request, faults: Faults): (r: (Response, Directory))
    ensures r.0.Response? ==> r.0.status in {200, 400, 404, 500}
    ensures Route(req.path, req.httpMethod) == NotFoundRoute ==> r == (Response(404, NOT_FOUND_BODY), files)
    ensures Route(req.path, req.httpMethod) == HomeRoute ==> r == (Response(200, GREETING), files)
  {
    match Route(req.path, req.httpMethod)
    case UploadRoute =>
      var step := UploadStep(libs, appId, files, req.body, faults);
      (UploadResponse(step.result), step.files)
    case NotFoundRoute => (Response(404, NOT_FOUND_BODY), files)
    case HomeRoute => (Response(200, GREETING), files)
  }

  /** `httpAPI` */
  method HandleRequest(s: Server, req: Request, faults: Faults) returns (resp: Response)
    modifies s
    ensures (resp, s.files) == Serve(s.libs, s.appId, old(s.files), req, faults)
  {
    if req.path == UPLOAD_PATH && req.httpMethod == METHOD_PUT {
      var r := s.Upload(req.body, faults);
      resp := UploadResponse(r);
      return;
    }
    if req.path != ROOT_PATH {
      resp := Response(404, NOT_FOUND_BODY);
      return;
    }
    resp := Response(200, GREETING);
  }

  /**
   Only `PUT /upload` can change the data directory, and after it the
   directory is the upload's; every answer to it is 200, 400 or 500 with that
   status's text, a failure answering with its own status, or no answer after
   a panic.
   */
  lemma OnlyUploadStores(libs: Libraries, appId: string, files: Directory, req: Request, faults: Faults)
    ensures var (resp, after) := Serve(libs, appId, files, req, faults);
      && (Route(req.path, req.httpMethod) != UploadRoute ==> after == files)
      && (after != files ==> req.path == UPLOAD_PATH && req.httpMethod == METHOD_PUT)
      && (Route(req.path, req.httpMethod) == UploadRoute && resp.Response? ==>
            (resp.status == 200 || resp.status == 400 || resp.status == 500)
            && resp.body == StatusText(resp.status))
      && (Route(req.path, req.httpMethod) == UploadRoute ==>
            (resp == Response(200, "OK") <==> UploadStep(libs, appId, files, req.body, faults).result.Stored?))
      && (Route(req.path, req.httpMethod) == UploadRoute ==>
            after == UploadStep(libs, appId, files, req.body, faults).files)
      && (Route(req.path, req.httpMethod) == UploadRoute && UploadStep(libs, appId, files, req.body, faults).result.Failed? ==>
            var status := UploadStep(libs, appId, files, req.body, faults).result.apiError.status;
            resp == Response(status, StatusText(status)))
      && (Route(req.path, req.httpMethod) == UploadRoute ==>
            (resp.Aborted? <==> UploadStep(libs, appId, files, req.body, faults).result.Panicked?))
  {
  }

  /**
   `/upload` with any method but PUT is not found, and `/` answers the
   greeting whatever the method.
   */
  lemma UploadNeedsPut(libs: Libraries, appId: string, files: Directory, req: Request, faults: Faults)
    ensures req.path == UPLOAD_PATH && req.httpMethod != METHOD_PUT ==>
              Serve(libs, appId, files, req, faults) == (Response(404, NOT_FOUND_BODY), files)
    ensures req.path == ROOT_PATH ==>
              Serve(libs, appId, files, req, faults) == (Response(200, GREETING), files)
  {
  }

  /**
   The end-to-end scenario: a fresh archive whose one matching member, among
   any others, is a signed profile granting
   `id` is answered 200 when `id` is the configured identifier and 400
   otherwise, and is stored either way; the same bytes sent again get 400.
   */
  lemma EndToEnd(libs: Libraries, appId: string, files: Directory, req: Request,
                 m: Member, signed: Bytes, profile: Profile, id: string)
    requires req.path == UPLOAD_PATH && req.httpMethod == METHOD_PUT
    requires StoredName(libs.sha1(req.body)) !in files
    requires libs.openZip(req.body).Some? && Manifests(libs.openZip(req.body).value) == [m]
    requires m.data == Readable(signed)
    requires libs.parsePkcs7(signed).Some? && libs.parsePkcs7(signed).value.signatureValid
    requires libs.decodePlist(libs.parsePkcs7(signed).value.content) == Some(profile)
    requires ENTITLEMENTS_KEY in profile && profile[ENTITLEMENTS_KEY].Dict?
    requires APP_ID_KEY in profile[ENTITLEMENTS_KEY].entries
    requires profile[ENTITLEMENTS_KEY].entries[APP_ID_KEY] == Str(id)
    ensures var (resp, after) := Serve(libs, appId, files, req, Faults(false, false, false, false));
      && resp == (if id == appId then Response(200, "OK") else Response(400, "Bad Request"))
      && after == files[StoredName(libs.sha1(req.body)) := req.body]
      && Serve(libs, appId, after, req, Faults(false, false, false, false)).0 == Response(400, "Bad Request")
  {
    SingleProfileScenario(libs, req.body, m, signed, profile, id, appId);
  }
}
