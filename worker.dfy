/**
 * The worker's `fetch` entry point: the preflight answer, public file
 * serving, the `/api/` router with its key gate and login route, the panel
 * redirect, the root banner and the fallback 404.
 */
module Worker {
  import opened JsString
  import opened Types
  import opened Storage
  import opened Db
  import opened Http
  import opened Auth
  import opened FilesRoute
  import opened Upload
  import opened FileRoute

  // ---------------------------------------------------------------- requests

  /** A property of the login body as `!value` and `===` see it: absent, a string, or another JSON value. */
  datatype JsonField = Absent | Str(s: string) | NonString(truthy: bool)

  /** `request.json()` on the login route: a body that throws on parsing or destructuring, or its two fields. */
  datatype LoginBody = BadBody | LoginFields(username: JsonField, password: JsonField)

  /**
   * An incoming request: its method (`verb`), its URL's path and query, the two
   * headers the worker reads, and its body as each handler reads it.
   */
  datatype Request = Request(
    verb: string,
    path: string,
    query: SearchParams,
    authorization: Option<string>,
    contentType: Option<string>,
    form: FormBody,
    json: JsonBody,
    login: LoginBody)

  /**
   * Everything the handlers take from outside the request: clocks, ids,
   * digests, the fate of each write, whether the bucket read of a public
   * file throws, and which URLs the platform's URL parser accepts (the
   * redirect throws a `TypeError` for one it rejects).
   */
  datatype WorkerIo = WorkerIo(upload: UploadIo, updateNow: string, update: Fault, delete: DeleteIo, serveRead: Fault,
    urlParses: string -> bool)

  /**
   * The answer of `fetch`'s outer `catch`. Two modelled calls reach it: the
   * bucket read of `handleFileServing`, which has no `catch` of its own, and
   * the panel redirect to a URL that does not parse.
   */
  const InternalServerError: string := "Internal server error"

  const ApiNotFound: string := "API endpoint not found"
  const PanelOrigin: string := "https://my-cdn-panel.pages.dev"

  // ---------------------------------------------------------------- public file paths

  predicate IsSlugChar(c: char) { IsWordChar(c) || c == '-' }

  /** The length of the longest prefix of `[\w-]` characters. */
  function SlugRun(s: string): (n: nat)
    ensures n <= |s|
    ensures forall i :: 0 <= i < n ==> IsSlugChar(s[i])
    ensures n < |s| ==> !IsSlugChar(s[n])
  {
    if s != [] && IsSlugChar(s[0]) then 1 + SlugRun(s[1..]) else 0
  }

  /**
   * `/^\/\d{6}\/[\w-]+\.\w+$/`: a slash, six digits, a slash, a name of word
   * characters and `-`, a dot, and an extension of word characters. As `.`
   * is neither, the name is the whole run of such characters.
   */
  predicate IsPublicFilePath(path: string)
    ensures IsPublicFilePath(path) ==> !("/api/" <= path) && !("/panel" <= path) && path != "/"
  {
    assert "/api/"[1] == 'a' && "/panel"[1] == 'p';
    |path| >= 8 && path[0] == '/' && (forall i | 1 <= i < 7 :: IsDigit(path[i])) && path[7] == '/'
    && var name := path[8..];
      var k := SlugRun(name);
      1 <= k && k + 1 < |name| && name[k] == '.' && forall i | k + 1 <= i < |name| :: IsWordChar(name[i])
  }

  /** `handleFileServing`: the blob at the path without its slash, typed by the path's extension, or a plain 404. */
  function ServeFile(objects: map<string, StoredObject>, path: string): (r: Response)
    requires |path| >= 1
    ensures r.status == 200 <==> path[1..] in objects
    ensures r.status != 200 ==> r == Response(404, PlainText("File not found"))
    ensures r.status == 200 ==>
      r.body.Served? && r.body.data == objects[path[1..]].data && r.body.contentLength == |r.body.data|
      && (PathExtension(path) !in PrototypeMembers ==> r.body.contentType == OctetStream || IsAllowedType(r.body.contentType))
      && (PathExtension(path) in PrototypeMembers ==> r.body.contentType == PrototypeMembers[PathExtension(path)])
  {
    var storedPath := path[1..];
    if storedPath !in objects then Response(404, PlainText("File not found"))
    else
      var blob := objects[storedPath];
      Response(200, Served(blob.data, ContentTypeFromPath(path), ImmutableCacheControl, |blob.data|))
  }

  lemma {:induction false} SlugRunOf(w: string, rest: string)
    requires forall i :: 0 <= i < |w| ==> IsSlugChar(w[i])
    requires rest == [] || !IsSlugChar(rest[0])
    ensures SlugRun(w + rest) == |w|
    decreases |w|
  {
    if w != [] {
      assert (w + rest)[1..] == w[1..] + rest;
      SlugRunOf(w[1..], rest);
    }
  }

  /** A path `/<six digits>/<name>.<ext>`, for a non-empty word-and-dash name and a non-empty word extension, is public. */
  lemma PublicPathOf(ym: string, name: string, ext: string)
    requires |ym| == 6 && forall i :: 0 <= i < 6 ==> IsDigit(ym[i])
    requires |name| >= 1 && forall i :: 0 <= i < |name| ==> IsSlugChar(name[i])
    requires |ext| >= 1 && forall i :: 0 <= i < |ext| ==> IsWordChar(ext[i])
    ensures IsPublicFilePath("/" + ym + "/" + name + "." + ext)
  {
    var p := "/" + ym + "/" + name + "." + ext;
    var tail := "." + ext;
    assert p[8..] == name + tail;
    assert forall i | 1 <= i < 7 :: p[i] == ym[i - 1];
    SlugRunOf(name, tail);
    var r := name + tail;
    assert forall i | |name| + 1 <= i < |r| :: r[i] == ext[i - |name| - 1];
  }

  lemma HexIsSlug(h: string)
    requires IsLowerHex(h)
    ensures forall i :: 0 <= i < |h| ==> IsSlugChar(h[i]) && IsWordChar(h[i])
  {
  }

  lemma ExtensionsAreWords(mime: string)
    requires IsAllowedType(mime)
    ensures var ext := MimeToExtension[mime];
      |ext| >= 1 && forall i :: 0 <= i < |ext| ==> IsWordChar(ext[i])
  {
  }

  /**
   * Every path an upload writes, the blob and its thumbnail, is a public file
   * path while the year has four digits: the URL `fileRecordToResponse`
   * hands out is served by the worker itself.
   */
  lemma StoredPathsArePublic(digest: seq<Byte>, mime: string, c: Clock)
    requires |digest| >= 8 && IsAllowedType(mime) && 1000 <= c.year <= 9999
    ensures IsPublicFilePath("/" + StoragePath(FileHash(digest), MimeToExtension[mime], c))
    ensures IsPublicFilePath("/" + ThumbnailPath(FileHash(digest), "jpg", c))
  {
    var h := FileHash(digest);
    FileHashShape(digest);
    HexIsSlug(h);
    YearMonthShape(c);
    ExtensionsAreWords(mime);
    MainPathIsPublic(h, MimeToExtension[mime], c);
    ThumbnailPathIsPublic(h, c);
  }

  lemma MainPathIsPublic(h: string, ext: string, c: Clock)
    requires |YearMonth(c)| == 6 && forall i :: 0 <= i < 6 ==> IsDigit(YearMonth(c)[i])
    requires |h| >= 1 && forall i :: 0 <= i < |h| ==> IsSlugChar(h[i])
    requires |ext| >= 1 && forall i :: 0 <= i < |ext| ==> IsWordChar(ext[i])
    ensures IsPublicFilePath("/" + StoragePath(h, ext, c))
  {
    var ym := YearMonth(c);
    assert "/" + StoragePath(h, ext, c) == "/" + ym + "/" + h + "." + ext;
    PublicPathOf(ym, h, ext);
  }

  lemma ThumbnailPathIsPublic(h: string, c: Clock)
    requires |YearMonth(c)| == 6 && forall i :: 0 <= i < 6 ==> IsDigit(YearMonth(c)[i])
    requires |h| >= 1 && forall i :: 0 <= i < |h| ==> IsSlugChar(h[i])
    ensures IsPublicFilePath("/" + ThumbnailPath(h, "jpg", c))
  {
    var ym := YearMonth(c);
    var thumbName := h + "_thumb";
    forall i | 0 <= i < |thumbName|
      ensures IsSlugChar(thumbName[i])
    {
      if i >= |h| {
        assert thumbName[i] == "_thumb"[i - |h|];
      }
    }
    assert "/" + ThumbnailPath(h, "jpg", c) == "/" + ym + "/" + thumbName + "." + "jpg";
    PublicPathOf(ym, thumbName, "jpg");
  }

  /** A blob stored under an upload's path is served back as it was written, typed by its extension. */
  lemma StoredBlobIsServed(objects: map<string, StoredObject>, digest: seq<Byte>, mime: string, c: Clock)
    requires IsAllowedType(mime)
    requires StoragePath(FileHash(digest), MimeToExtension[mime], c) in objects
    ensures var p := StoragePath(FileHash(digest), MimeToExtension[mime], c);
      var blob := objects[p];
      ServeFile(objects, "/" + p)
        == Response(200, Served(blob.data, ExtensionToMime[MimeToExtension[mime]], ImmutableCacheControl, |blob.data|))
  {
    var p := StoragePath(FileHash(digest), MimeToExtension[mime], c);
    assert ("/" + p)[1..] == p;
    ServedTypeOfStoredPath("/", FileHash(digest), mime, c);
  }

  /**
   * A public path whose extension names a prototype member spelled without
   * capitals, `/202401/a.constructor` or `/202401/a.__proto__`, is served
   * (when the bucket holds it) with that member's rendering as its type, not
   * the generic type. No upload ever writes such a path.
   */
  lemma PrototypeExtensionServed(objects: map<string, StoredObject>, ym: string, name: string, ext: string)
    requires |ym| == 6 && forall i :: 0 <= i < 6 ==> IsDigit(ym[i])
    requires |name| >= 1 && forall i :: 0 <= i < |name| ==> IsSlugChar(name[i])
    requires ext in PrototypeMembers && !HasCapital(ext)
    requires ym + "/" + name + "." + ext in objects
    ensures IsPublicFilePath("/" + ym + "/" + name + "." + ext)
    ensures var r := ServeFile(objects, "/" + ym + "/" + name + "." + ext);
      r.status == 200 && r.body.contentType == PrototypeMembers[ext] && r.body.contentType != OctetStream
  {
    PrototypeCapitals();
    assert forall i :: 0 <= i < |ext| ==> IsWordChar(ext[i]) && !('A' <= ext[i] <= 'Z');
    PublicPathOf(ym, name, ext);
    var p := "/" + ym + "/" + name + "." + ext;
    assert p[1..] == ym + "/" + name + "." + ext;
    assert p == ("/" + ym + "/" + name) + "." + ext;
    PathExtensionOf("/" + ym + "/" + name, ext);
    assert PathExtension(p) == ext;
  }

  // ---------------------------------------------------------------- single-file routes

  /** `[a-fA-F0-9-]`: the `i` flag makes the hex letters case-insensitive. */
  predicate IsIdChar(c: char) {
    IsDigit(c) || ('a' <= c <= 'f') || ('A' <= c <= 'F') || c == '-'
  }

  const FilePrefix: string := "/api/file/"

  /**
   * `/^\/api\/file\/([a-f0-9-]+)$/i`: the prefix, then one or more id
   * characters to the end. The `i` flag covers the literal prefix too, and a
   * non-unicode `i` never folds a non-ASCII character onto an ASCII one, so
   * the prefix matches exactly when it lowercases to `/api/file/`.
   */
  predicate IsFileRoute(path: string) {
    |path| > |FilePrefix| && ToLowerAscii(path[..|FilePrefix|]) == FilePrefix
    && forall i | |FilePrefix| <= i < |path| :: IsIdChar(path[i])
  }

  /** `path.match(...)[1]`: the captured id, which is everything after the prefix. */
  function FileIdOf(path: string): (id: Option<string>)
    ensures id.Some? <==> IsFileRoute(path)
    ensures id.Some? ==>
      |path| > |FilePrefix| && ToLowerAscii(path[..|FilePrefix|]) == FilePrefix && id.value == path[|FilePrefix|..]
  {
    if IsFileRoute(path) then Some(path[|FilePrefix|..]) else None
  }

  /**
   * Any non-empty run of hex digits and dashes, a UUID among them, is routed
   * as an id after the prefix written in any mix of cases.
   */
  lemma FileIdOfRoute(prefix: string, id: string)
    requires |prefix| == |FilePrefix| && ToLowerAscii(prefix) == FilePrefix
    requires |id| >= 1 && forall i :: 0 <= i < |id| ==> IsIdChar(id[i])
    ensures FileIdOf(prefix + id) == Some(id)
  {
    var p := prefix + id;
    assert p[..|FilePrefix|] == prefix;
    assert forall i | |FilePrefix| <= i < |p| :: p[i] == id[i - |FilePrefix|];
    assert p[|FilePrefix|..] == id;
  }

  /** `/api/file/`, `/api/File/` and `/api/FILE/` all route an id. */
  lemma FilePrefixCases(id: string)
    requires |id| >= 1 && forall i :: 0 <= i < |id| ==> IsIdChar(id[i])
    ensures FileIdOf("/api/file/" + id) == Some(id)
    ensures FileIdOf("/api/File/" + id) == Some(id)
    ensures FileIdOf("/api/FILE/" + id) == Some(id)
  {
    LowerAsciiIdentity(FilePrefix);
    FileIdOfRoute("/api/file/", id);
    assert ToLowerAscii("/api/File/") == FilePrefix;
    FileIdOfRoute("/api/File/", id);
    assert ToLowerAscii("/api/FILE/") == FilePrefix;
    FileIdOfRoute("/api/FILE/", id);
  }

  // ---------------------------------------------------------------- login

  /** JavaScript truthiness of a body property. */
  predicate Truthy(f: JsonField) {
    match f
    case Absent => false
    case Str(s) => s != ""
    case NonString(t) => t
  }

  /** `validateAdminCredentials` on JSON properties: `===` is false for anything not a string. */
  predicate CredentialsMatch(username: JsonField, password: JsonField, config: Config) {
    username.Str? && password.Str? && ValidateAdminCredentials(username.s, password.s, config)
  }

  /** `handleLogin`: a bad body, then missing fields, then wrong credentials; success hands out the API key. */
  function HandleLogin(body: LoginBody, config: Config): (r: Response)
    ensures r.status == 200 || r.status == 400 || r.status == 401
    ensures r.status == 200 ==> r.body == LoginBody(config.apiKey, "Login successful")
    ensures r.status != 200 ==> r.body.ErrorBody?
    ensures r.status == 401 <==> (body.LoginFields? && Truthy(body.username) && Truthy(body.password)
      && !CredentialsMatch(body.username, body.password, config))
  {
    match body
    case BadBody => Error(400, "Invalid request body")
    case LoginFields(username, password) =>
      if !Truthy(username) || !Truthy(password) then Error(400, "Username and password are required")
      else if !CredentialsMatch(username, password, config) then Error(401, "Invalid credentials")
      else Response(200, LoginBody(config.apiKey, "Login successful"))
  }

  /**
   * A login succeeds exactly when both properties are the configured
   * non-empty strings, and then its token is the API key itself; every other
   * answer is an error.
   */
  lemma LoginIff(body: LoginBody, config: Config)
    ensures var r := HandleLogin(body, config);
      (r.status == 200 <==>
         body == LoginFields(Str(config.adminUsername), Str(config.adminPassword))
         && config.adminUsername != "" && config.adminPassword != "")
      && (r.status == 200 ==> r.body == LoginBody(config.apiKey, "Login successful"))
      && (r.status != 200 ==> r.body.ErrorBody? && (r.status == 400 || r.status == 401))
  {
  }

  /** A token from a successful login is accepted by the key gate whenever the key has no space. */
  lemma LoginTokenAuthorizes(config: Config)
    requires config.apiKey != "" && ' ' !in config.apiKey
    ensures ValidateApiKey(Some("Bearer " + config.apiKey), config.apiKey) == Authorized
  {
    AuthorizedIff("Bearer " + config.apiKey, config.apiKey);
  }

  // ---------------------------------------------------------------- routing

  /** What a request answers and leaves in the bucket and the table. */
  datatype FetchOutcome = FetchOutcome(response: Response, objects: map<string, StoredObject>, rows: seq<FileRecord>)

  /** `Response.redirect` target for a `/panel` path: the first `/panel` removed, `/` when nothing is left. */
  function PanelLocation(path: string): string
    requires "/panel" <= path
  {
    var rest := path[6..];
    PanelOrigin + (if rest == "" then "/" else rest)
  }

  /**
   * `fetch`: the preflight first, then public files, the API, the panel
   * redirect, the root banner, and 404 for anything else.
   */
  function FetchEffect(objects: map<string, StoredObject>, rows: seq<FileRecord>, req: Request, config: Config,
    io: WorkerIo): FetchOutcome
  {
    if req.verb == "OPTIONS" then FetchOutcome(Response(204, NoBody), objects, rows)
    else if IsPublicFilePath(req.path) then
      FetchOutcome(if io.serveRead.Throws? then Error(500, InternalServerError) else ServeFile(objects, req.path), objects, rows)
    else if "/api/" <= req.path then ApiEffect(objects, rows, req, config, io)
    else if "/panel" <= req.path then
      FetchOutcome(if io.urlParses(PanelLocation(req.path)) then Response(302, RedirectTo(PanelLocation(req.path)))
                   else Error(500, InternalServerError), objects, rows)
    else if req.path == "/" then FetchOutcome(Response(200, RootBody("My CDN API", "1.0.0", "ok")), objects, rows)
    else FetchOutcome(Error(404, "Not found"), objects, rows)
  }

  /** `handleApiRoutes`: the login route needs no key; every other one is behind the key gate. */
  function ApiEffect(objects: map<string, StoredObject>, rows: seq<FileRecord>, req: Request, config: Config,
    io: WorkerIo): FetchOutcome
  {
    if req.path == "/api/auth/login" && req.verb == "POST" then
      FetchOutcome(HandleLogin(req.login, config), objects, rows)
    else match ValidateApiKey(req.authorization, config.apiKey)
      case Rejected(e) => FetchOutcome(Error(401, e), objects, rows)
      case Authorized => RoutedEffect(objects, rows, req, config, io)
  }

  /** The routes behind the key gate, and 404 for an unknown endpoint or method. */
  function RoutedEffect(objects: map<string, StoredObject>, rows: seq<FileRecord>, req: Request, config: Config,
    io: WorkerIo): FetchOutcome
  {
    if req.path == "/api/upload" && req.verb == "POST" then
      var o := UploadEffect(objects, rows, req.contentType, req.form, io.upload, config.cdnBaseUrl);
      FetchOutcome(HandleUpload(o.result), o.objects, o.rows)
    else if req.path == "/api/files" && req.verb == "GET" then
      FetchOutcome(HandleGetFiles(rows, req.query, config.cdnBaseUrl), objects, rows)
    else match FileIdOf(req.path)
      case Some(id) =>
        if req.verb == "GET" then FetchOutcome(HandleGetFile(rows, id, config.cdnBaseUrl), objects, rows)
        else if req.verb == "PATCH" then
          var o := UpdateFileEffect(rows, id, req.json, io.updateNow, io.update, config.cdnBaseUrl);
          FetchOutcome(o.response, objects, o.rows)
        else if req.verb == "DELETE" then
          var o := DeleteFileEffect(objects, rows, id, io.delete);
          FetchOutcome(o.response, o.objects, o.rows)
        else FetchOutcome(Error(404, ApiNotFound), objects, rows)
      case None => FetchOutcome(Error(404, ApiNotFound), objects, rows)
  }

  /** `fetch` on the two stores. The upload's id is fresh. */
  method Fetch(bucket: Bucket, table: FilesTable, req: Request, config: Config, io: WorkerIo) returns (response: Response)
    requires table.Valid() && !HasId(table.rows, io.upload.freshId)
    modifies bucket, table
    ensures table.Valid()
    ensures FetchOutcome(response, bucket.objects, table.rows)
      == FetchEffect(old(bucket.objects), old(table.rows), req, config, io)
  {
    if req.verb == "OPTIONS" {
      return Response(204, NoBody);
    }
    if IsPublicFilePath(req.path) {
      if io.serveRead.Throws? {
        return Error(500, InternalServerError);
      }
      return ServeFile(bucket.objects, req.path);
    }
    if "/api/" <= req.path {
      if req.path == "/api/auth/login" && req.verb == "POST" {
        return HandleLogin(req.login, config);
      }
      var auth := ValidateApiKey(req.authorization, config.apiKey);
      if auth.Rejected? {
        return Error(401, auth.error);
      }
      if req.path == "/api/upload" && req.verb == "POST" {
        var result := ProcessUpload(bucket, table, req.contentType, req.form, io.upload, config.cdnBaseUrl);
        return HandleUpload(result);
      }
      if req.path == "/api/files" && req.verb == "GET" {
        return HandleGetFiles(table.rows, req.query, config.cdnBaseUrl);
      }
      var id := FileIdOf(req.path);
      if id.Some? {
        if req.verb == "GET" {
          return HandleGetFile(table.rows, id.value, config.cdnBaseUrl);
        } else if req.verb == "PATCH" {
          response := HandleUpdateFile(table, id.value, req.json, io.updateNow, io.update, config.cdnBaseUrl);
          return;
        } else if req.verb == "DELETE" {
          response := HandleDeleteFile(bucket, table, id.value, io.delete);
          return;
        }
      }
      return Error(404, ApiNotFound);
    }
    if "/panel" <= req.path {
      if !io.urlParses(PanelLocation(req.path)) {
        return Error(500, InternalServerError);
      }
      return Response(302, RedirectTo(PanelLocation(req.path)));
    }
    if req.path == "/" {
      return Response(200, RootBody("My CDN API", "1.0.0", "ok"));
    }
    response := Error(404, "Not found");
  }

  // ---------------------------------------------------------------- what routing guarantees

  /** A preflight is answered 204 with no body for every path, before anything else, and changes nothing. */
  lemma PreflightFirst(objects: map<string, StoredObject>, rows: seq<FileRecord>, req: Request, config: Config,
    io: WorkerIo)
    requires req.verb == "OPTIONS"
    ensures FetchEffect(objects, rows, req, config, io) == FetchOutcome(Response(204, NoBody), objects, rows)
  {
  }

  /**
   * The key gate precedes every API route but the login: without a valid key
   * each of them, known or not, answers 401 with the gate's message and
   * changes nothing.
   */
  lemma GateBeforeApi(objects: map<string, StoredObject>, rows: seq<FileRecord>, req: Request, config: Config,
    io: WorkerIo)
    requires req.verb != "OPTIONS" && "/api/" <= req.path
    requires !(req.path == "/api/auth/login" && req.verb == "POST")
    requires ValidateApiKey(req.authorization, config.apiKey).Rejected?
    ensures var o := FetchEffect(objects, rows, req, config, io);
      o == FetchOutcome(Error(401, ValidateApiKey(req.authorization, config.apiKey).error), objects, rows)
      && o.response.status == 401
  {
    assert !IsPublicFilePath(req.path) by {
      assert req.path[1] == 'a';
    }
  }

  /** `POST /api/auth/login` alone reaches its handler without a key, and changes nothing. */
  lemma LoginBypassesGate(objects: map<string, StoredObject>, rows: seq<FileRecord>, req: Request, config: Config,
    io: WorkerIo)
    requires req.verb == "POST" && req.path == "/api/auth/login"
    ensures FetchEffect(objects, rows, req, config, io) == FetchOutcome(HandleLogin(req.login, config), objects, rows)
  {
    assert !IsPublicFilePath(req.path) by {
      assert req.path[1] == 'a';
    }
  }

  /**
   * Behind a valid key, a path no route takes, or a file route with a method
   * other than `GET`, `PATCH` and `DELETE`, is answered 404 and changes nothing.
   */
  lemma UnknownApiRoute(objects: map<string, StoredObject>, rows: seq<FileRecord>, req: Request, config: Config,
    io: WorkerIo)
    requires req.verb != "OPTIONS" && "/api/" <= req.path
    requires ValidateApiKey(req.authorization, config.apiKey).Authorized?
    requires !(req.path == "/api/upload" && req.verb == "POST") && !(req.path == "/api/files" && req.verb == "GET")
    requires !(req.path == "/api/auth/login" && req.verb == "POST")
    requires FileIdOf(req.path).None? || (req.verb != "GET" && req.verb != "PATCH" && req.verb != "DELETE")
    ensures FetchEffect(objects, rows, req, config, io) == FetchOutcome(Error(404, ApiNotFound), objects, rows)
  {
    assert !IsPublicFilePath(req.path) by {
      assert req.path[1] == 'a';
    }
  }

  /**
   * Behind a valid key, a file route under `/api/` (its `file` in any case)
   * is dispatched by method: `GET` reads, `PATCH` renames, `DELETE` deletes.
   */
  lemma FileRoutesDispatch(objects: map<string, StoredObject>, rows: seq<FileRecord>, req: Request, config: Config,
    io: WorkerIo)
    requires req.verb != "OPTIONS" && "/api/" <= req.path && FileIdOf(req.path).Some?
    requires ValidateApiKey(req.authorization, config.apiKey).Authorized?
    ensures var id := FileIdOf(req.path).value;
      var o := FetchEffect(objects, rows, req, config, io);
      (req.verb == "GET" ==> o == FetchOutcome(HandleGetFile(rows, id, config.cdnBaseUrl), objects, rows))
      && (req.verb == "PATCH" ==>
            var u := UpdateFileEffect(rows, id, req.json, io.updateNow, io.update, config.cdnBaseUrl);
            o == FetchOutcome(u.response, objects, u.rows))
      && (req.verb == "DELETE" ==>
            var d := DeleteFileEffect(objects, rows, id, io.delete);
            o == FetchOutcome(d.response, d.objects, d.rows))
  {
    assert !IsPublicFilePath(req.path) by {
      assert req.path[1] == 'a';
    }
    // the sixth character of a file route lowercases to `f`
    assert ToLowerAscii(req.path[..|FilePrefix|])[5] == 'f';
    assert |"/api/files"| == |FilePrefix|;
  }

  /** A path that is no public file, not under `/api/` or `/panel` and not `/` is answered 404 `Not found`. */
  lemma UnknownPathNotFound(objects: map<string, StoredObject>, rows: seq<FileRecord>, req: Request, config: Config,
    io: WorkerIo)
    requires req.verb != "OPTIONS" && !IsPublicFilePath(req.path)
    requires !("/api/" <= req.path) && !("/panel" <= req.path) && req.path != "/"
    ensures FetchEffect(objects, rows, req, config, io) == FetchOutcome(Error(404, "Not found"), objects, rows)
  {
  }

  /**
   * Only three routes write, and only with a valid key: an upload, and a
   * rename or a deletion of one file. Every other request leaves both stores
   * as they were.
   */
  lemma OnlyAuthorizedWrites(objects: map<string, StoredObject>, rows: seq<FileRecord>, req: Request, config: Config,
    io: WorkerIo)
    ensures var o := FetchEffect(objects, rows, req, config, io);
      o.objects != objects || o.rows != rows ==>
        req.verb != "OPTIONS" && "/api/" <= req.path && ValidateApiKey(req.authorization, config.apiKey).Authorized?
        && ((req.path == "/api/upload" && req.verb == "POST")
            || (FileIdOf(req.path).Some? && (req.verb == "PATCH" || req.verb == "DELETE")))
  {
    if req.verb != "OPTIONS" && IsPublicFilePath(req.path) {
      assert req.path[1] != 'a';
    }
  }

  /** A `GET`, whatever its path and key, changes neither store. */
  lemma ReadsChangeNothing(objects: map<string, StoredObject>, rows: seq<FileRecord>, req: Request, config: Config,
    io: WorkerIo)
    requires req.verb == "GET"
    ensures var o := FetchEffect(objects, rows, req, config, io);
      o.objects == objects && o.rows == rows
  {
    OnlyAuthorizedWrites(objects, rows, req, config, io);
  }

  /** The panel redirect keeps the rest of the path; `/panel` alone goes to the root, and `/panelx` becomes `…devx`. */
  lemma PanelRedirects(rest: string)
    ensures PanelLocation("/panel" + rest) == PanelOrigin + (if rest == "" then "/" else rest)
    ensures PanelLocation("/panel") == PanelOrigin + "/"
  {
    assert ("/panel" + rest)[6..] == rest;
  }

  /**
   * A `/panel` path (any method but `OPTIONS`) is redirected with 302 to the
   * panel origin when that URL parses; otherwise `Response.redirect` throws
   * and the outer `catch` answers 500. Neither store changes.
   */
  lemma PanelAnswers(objects: map<string, StoredObject>, rows: seq<FileRecord>, req: Request, config: Config,
    io: WorkerIo)
    requires req.verb != "OPTIONS" && "/panel" <= req.path
    ensures var o := FetchEffect(objects, rows, req, config, io);
      o.objects == objects && o.rows == rows
      && (io.urlParses(PanelLocation(req.path)) ==> o.response == Response(302, RedirectTo(PanelLocation(req.path))))
      && (!io.urlParses(PanelLocation(req.path)) ==> o.response == Error(500, InternalServerError))
  {
    assert req.path[1] == 'p';
  }

  /**
   * Any method on a public file path is served from the bucket, the API and
   * the key gate never seeing it; a bucket read that throws ends in the outer
   * `catch`, and neither store changes.
   */
  lemma PublicFilesNeedNoKey(objects: map<string, StoredObject>, rows: seq<FileRecord>, req: Request, config: Config,
    io: WorkerIo)
    requires req.verb != "OPTIONS" && IsPublicFilePath(req.path)
    ensures var o := FetchEffect(objects, rows, req, config, io);
      o.objects == objects && o.rows == rows
      && (io.serveRead.Succeeds? ==> o.response == ServeFile(objects, req.path))
      && (io.serveRead.Throws? ==> o.response == Error(500, InternalServerError))
      && (o.response.status == 200 <==> io.serveRead.Succeeds? && req.path[1..] in objects)
  {
  }
}
