/** The Express application's own rules: CORS origin, which responses are
    compressed, the Cache-Control header of the `/api` routes, the 404
    fallback and the error handler. `process.env.NODE_ENV` is `nodeEnv`;
    paths are `req.path` below the `/api` mount point. */
module App {
  import opened Wrappers
  import opened Text
  import opened Http

  const PUBLIC_CACHE: string := "public, max-age=300"
  const PRIVATE_CACHE: string := "private, no-cache"
  const PUBLIC_PATHS: seq<string> := ["/galleries", "/featured", "/settings"]
  const ADMIN_SEGMENT: string := "/admin"
  const DOWNLOAD_SUFFIX: string := "/download"
  const NOT_FOUND: string := "Not found"
  const INTERNAL_ERROR: string := "Internal server error"
  const DEFAULT_FRONTEND: string := "http://localhost:3000"

  /** The `origin` option of `cors`: every origin in development, else the
      configured front end. */
  datatype CorsOrigin = AnyOrigin | Origin(url: string)

  function Cors(nodeEnv: Option<string>, frontendUrl: Option<string>): (o: CorsOrigin)
    ensures o.AnyOrigin? <==> nodeEnv == Some("development")
    ensures o.Origin? && frontendUrl.Some? && frontendUrl.value != "" ==> o.url == frontendUrl.value
    ensures o.Origin? && (frontendUrl.None? || frontendUrl.value == "") ==> o.url == DEFAULT_FRONTEND
  {
    if nodeEnv == Some("development") then AnyOrigin
    else if frontendUrl.Some? && frontendUrl.value != "" then Origin(frontendUrl.value)
    else Origin(DEFAULT_FRONTEND)
  }

  /** `prefixes.some(p => path.startsWith(p))` */
  function AnyPrefix(path: string, prefixes: seq<string>): (b: bool)
    ensures b <==> exists i :: 0 <= i < |prefixes| && StartsWith(path, prefixes[i])
  {
    if |prefixes| == 0 then false
    else if StartsWith(path, prefixes[0]) then true
    else
      var rest := AnyPrefix(path, prefixes[1..]);
      assert rest <==> exists i :: 0 <= i < |prefixes| && StartsWith(path, prefixes[i]) by {
        if rest {
          var i :| 0 <= i < |prefixes[1..]| && StartsWith(path, prefixes[1..][i]);
          assert prefixes[1..][i] == prefixes[i + 1];
        }
        if exists i :: 0 <= i < |prefixes| && StartsWith(path, prefixes[i]) {
          var i :| 0 <= i < |prefixes| && StartsWith(path, prefixes[i]);
          assert prefixes[1..][i - 1] == prefixes[i];
        }
      }
      rest
  }

  /** The Cache-Control header set on an `/api` request with HTTP method
      `verb`, `None` when the middleware sets none. */
  function CacheControl(verb: string, path: string): (h: Option<string>)
    ensures h.None? <==> verb != "GET"
    ensures h == Some(PUBLIC_CACHE) <==>
              verb == "GET" && AnyPrefix(path, PUBLIC_PATHS) && !Contains(path, ADMIN_SEGMENT)
    ensures h.Some? ==> h.value == PUBLIC_CACHE || h.value == PRIVATE_CACHE
  {
    if verb != "GET" then None
    else if AnyPrefix(path, PUBLIC_PATHS) && !Contains(path, ADMIN_SEGMENT) then Some(PUBLIC_CACHE)
    else Some(PRIVATE_CACHE)
  }

  /** `s` with `p` found at offset `i` is a string containing `p`. */
  lemma {:induction false} ContainsAt(s: string, p: string, i: nat)
    requires i + |p| <= |s| && s[i..i + |p|] == p
    ensures Contains(s, p)
    decreases i
  {
    if i > 0 {
      assert s[1..][i - 1..i - 1 + |p|] == s[i..i + |p|];
      ContainsAt(s[1..], p, i - 1);
    }
  }

  /** A GET whose path mentions `/admin` anywhere is never publicly
      cacheable; neither is one outside the three public trees. */
  lemma AdminPathsArePrivate(a: string, b: string)
    ensures CacheControl("GET", a + ADMIN_SEGMENT + b) == Some(PRIVATE_CACHE)
    ensures !AnyPrefix(a, PUBLIC_PATHS) ==> CacheControl("GET", a) == Some(PRIVATE_CACHE)
  {
    var s := a + ADMIN_SEGMENT + b;
    assert s[|a|..|a| + |ADMIN_SEGMENT|] == ADMIN_SEGMENT;
    ContainsAt(s, ADMIN_SEGMENT, |a|);
  }

  /** The public trees are matched as plain prefixes: anything below them,
      and any path that merely begins with the same letters, is cached
      publicly when it does not mention `/admin`. */
  lemma PublicTreesArePrefixes(rest: string)
    requires !Contains("/galleries" + rest, ADMIN_SEGMENT)
    ensures CacheControl("GET", "/galleries" + rest) == Some(PUBLIC_CACHE)
  {
    var s := "/galleries" + rest;
    assert s[..|PUBLIC_PATHS[0]|] == PUBLIC_PATHS[0];
  }

  /** The `filter` of `compression`: never for downloads, otherwise the
      library's default decision. */
  function Compress(path: string, defaultFilter: bool): (b: bool)
    ensures b <==> !EndsWith(path, DOWNLOAD_SUFFIX) && defaultFilter
  {
    if EndsWith(path, DOWNLOAD_SUFFIX) then false else defaultFilter
  }

  /** Every download route is sent uncompressed, whatever the default
      filter says. */
  lemma DownloadsAreNotCompressed(prefix: string, defaultFilter: bool)
    ensures !Compress(prefix + DOWNLOAD_SUFFIX, defaultFilter)
  {
    var s := prefix + DOWNLOAD_SUFFIX;
    assert s[|s| - |DOWNLOAD_SUFFIX|..] == DOWNLOAD_SUFFIX;
  }

  /** The routes' answer, or the 404 handler's when no route matched. */
  function Dispatch<T>(routed: Option<Response<T>>): (r: Response<T>)
    ensures routed.None? ==> r == Failure(404, NOT_FOUND)
    ensures routed.Some? ==> r == routed.value
  {
    match routed
    case None => Failure(404, NOT_FOUND)
    case Some(r) => r
  }

  /** The global error handler: status 500, and the error's message only
      outside production. */
  function ErrorResponse<T>(nodeEnv: Option<string>, message: string): (r: Response<T>)
    ensures r.Failure? && r.status == 500
    ensures nodeEnv == Some("production") ==> r.error == INTERNAL_ERROR
    ensures nodeEnv != Some("production") ==> r.error == message
  {
    Failure(500, if nodeEnv == Some("production") then INTERNAL_ERROR else message)
  }

  /** In production two different errors give the same response, so
      nothing of the message reaches the client. */
  lemma ProductionHidesMessages<T>(m1: string, m2: string)
    ensures ErrorResponse<T>(Some("production"), m1) == ErrorResponse<T>(Some("production"), m2)
    ensures ErrorResponse<T>(None, m1) == ErrorResponse<T>(None, m2) ==> m1 == m2
  {
  }
}
