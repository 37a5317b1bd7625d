/** The gateway's proxy rules: the four mounts under `/v1`, the token gate in
    front of every mount but the auth one, the `/v1` to `/api` rewrite of the
    forwarded URL, and the per-service rewrite of the forwarded headers. */
module GatewayProxy {
  import opened Common
  import opened Tokens
  import GatewayAuth
  import MediaAuth

  /** Header names to values. Incoming names are lower case, as Node hands
      them over; the decorators add the names they write as written. */
  type Headers = map<string, string>

  const JsonType: string := "application/json"
  const MultipartType: string := "multipart/form-data"

  function Lookup(headers: Headers, name: string): Option<string>
  {
    if name in headers then Some(headers[name]) else None
  }

  /** `proxyReqPathResolver`: `originalUrl.replace(/^\/v1/, "/api")`. */
  function RewritePath(url: string): (r: string)
    ensures StartsWith(url, "/v1") ==> |r| == |url| + 1 && StartsWith(r, "/api") && r[4..] == url[3..]
    ensures !StartsWith(url, "/v1") ==> r == url
  {
    if StartsWith(url, "/v1") then "/api" + url[3..] else url
  }

  /** A rewritten URL is not rewritten again. */
  lemma RewriteIdempotent(url: string)
    ensures RewritePath(RewritePath(url)) == RewritePath(url)
  {
    var r := RewritePath(url);
    if StartsWith(url, "/v1") {
      assert r[..4] == "/api";
      assert r[..3] != "/v1" by { assert r[..3][1] == 'a'; }
    }
  }

  /** Two `/v1` URLs are forwarded to the same path only if they are equal. */
  lemma RewriteInjectiveOnVersioned(url1: string, url2: string)
    requires StartsWith(url1, "/v1") && StartsWith(url2, "/v1")
    requires RewritePath(url1) == RewritePath(url2)
    ensures url1 == url2
  {
    assert url1 == "/v1" + url1[3..] && url2 == "/v1" + url2[3..];
  }

  /** The match has no segment boundary: `/v1x` becomes `/apix`, while
      `/v2/posts` passes unchanged. */
  lemma RewriteIgnoresSegments()
    ensures RewritePath("/v1x") == "/apix"
    ensures RewritePath("/v2/posts") == "/v2/posts"
  {
    assert "/v1x"[..3] == "/v1";
    assert "/v1x"[3..] == "x";
    assert "/v2/posts"[..3] != "/v1" by { assert "/v2/posts"[2] == '2'; }
  }

  datatype Service = Identity | Posts | Media | Search

  /** The mount path of each service, `/${version}/...` with `version = "v1"`. */
  function MountPath(s: Service): string
  {
    match s
    case Identity => "/v1/auth"
    case Posts => "/v1/posts"
    case Media => "/v1/media"
    case Search => "/v1/search"
  }

  /** Every mount but the auth one runs `validateToken` first. */
  predicate Gated(s: Service)
  {
    s != Identity
  }

  /** Express mounting, compared with exact case: the path is the mount path
      or continues it with a further segment. Express itself ignores case
      here, so `/V1/posts` would also reach the posts mount. */
  predicate Mounted(path: string, mount: string)
  {
    path == mount || StartsWith(path, mount + "/")
  }

  /** The mounts in registration order; the first that matches handles the
      request. */
  function FindMount(path: string): Option<Service>
  {
    if Mounted(path, MountPath(Identity)) then Some(Identity)
    else if Mounted(path, MountPath(Posts)) then Some(Posts)
    else if Mounted(path, MountPath(Media)) then Some(Media)
    else if Mounted(path, MountPath(Search)) then Some(Search)
    else None
  }

  /** Every mounted path lies under `/v1/`. */
  lemma MountedVersioned(path: string, s: Service)
    requires Mounted(path, MountPath(s))
    ensures StartsWith(path, "/v1/")
  {
    var m := MountPath(s);
    assert m[..4] == "/v1/";
    if path != m {
      assert path[..|m| + 1] == m + "/";
      assert path[..4] == (m + "/")[..4];
    }
  }

  lemma NotMountedFifth(path: string, mount: string)
    requires |path| > 4 && |mount| > 4 && path[4] != mount[4]
    ensures !Mounted(path, mount)
  {
    if |path| >= |mount| + 1 {
      assert path[..|mount| + 1][4] != (mount + "/")[4];
    }
  }

  lemma NotMountedUnlessSlash(path: string, mount: string)
    requires |path| == |mount| + 1 && path[|mount|] != '/'
    ensures !Mounted(path, mount)
  {
    assert path[..|mount| + 1][|mount|] != (mount + "/")[|mount|];
  }

  lemma MountedFifth(path: string, s: Service)
    requires Mounted(path, MountPath(s))
    ensures |path| > 4 && path[4] == MountPath(s)[4]
  {
    if path != MountPath(s) {
      assert path[..|MountPath(s)|] == MountPath(s);
    }
  }

  /** The mount paths differ in their first letter after `/v1/`, so a path
      lies under at most one mount, and that is the mount that serves it. */
  lemma MountFor(path: string, s: Service)
    requires Mounted(path, MountPath(s))
    ensures FindMount(path) == Some(s)
  {
    MountedFifth(path, s);
    forall t: Service | Mounted(path, MountPath(t)) ensures t == s {
      MountedFifth(path, t);
    }
  }

  /** `proxyReqOptDecorator` of the identity mount. */
  function IdentityHeaders(out: Headers): (h: Headers)
    ensures Lookup(h, "Content-Type") == Some(JsonType)
    ensures forall k :: k != "Content-Type" ==> Lookup(h, k) == Lookup(out, k)
  {
    out["Content-Type" := JsonType]
  }

  /** `proxyReqOptDecorator` of the posts and search mounts. */
  function UserHeaders(out: Headers, user: Claims): (h: Headers)
    ensures Lookup(h, "Content-Type") == Some(JsonType) && Lookup(h, "x-user-id") == Some(user.userId)
    ensures forall k :: k != "Content-Type" && k != "x-user-id" ==> Lookup(h, k) == Lookup(out, k)
  {
    out["Content-Type" := JsonType]["x-user-id" := user.userId]
  }

  /** The media decorator as written: `srcReq.headers["content-type"].startsWith(...)`
      throws when the request has no content type, and the request then ends
      in the error handler instead of being forwarded (`None`). */
  function MediaHeadersAsWritten(out: Headers, incoming: Headers, user: Claims): (h: Option<Headers>)
    ensures h.None? <==> "content-type" !in incoming
  {
    var withUser := out["x-user-id" := user.userId];
    if "content-type" !in incoming then None
    else if !StartsWith(incoming["content-type"], MultipartType) then Some(withUser["Content-Type" := JsonType])
    else Some(withUser)
  }

  /** The media decorator as intended: a request without a content type is
      not a multipart upload, so it is forwarded as JSON like every other
      non-multipart request. */
  function MediaHeaders(out: Headers, incoming: Headers, user: Claims): (h: Headers)
    ensures Lookup(h, "x-user-id") == Some(user.userId)
    ensures Lookup(h, "Content-Type") ==
              if "content-type" in incoming && StartsWith(incoming["content-type"], MultipartType)
              then Lookup(out, "Content-Type") else Some(JsonType)
    ensures forall k :: k != "Content-Type" && k != "x-user-id" ==> Lookup(h, k) == Lookup(out, k)
  {
    var withUser := out["x-user-id" := user.userId];
    if "content-type" in incoming && StartsWith(incoming["content-type"], MultipartType) then withUser
    else withUser["Content-Type" := JsonType]
  }

  /** A media request without a content type, such as `GET /v1/media/get`,
      is not forwarded by the decorator as written. */
  lemma MediaGetWithoutContentTypeFails(user: Claims)
    ensures MediaHeadersAsWritten(map["authorization" := "Bearer t"], map["authorization" := "Bearer t"], user).None?
  {
  }

  /** The intended decorator agrees with the written one wherever the written
      one returns. */
  lemma MediaHeadersAgree(out: Headers, incoming: Headers, user: Claims)
    requires "content-type" in incoming
    ensures MediaHeadersAsWritten(out, incoming, user) == Some(MediaHeaders(out, incoming, user))
  {
  }

  /** The headers forwarded to a service; `out` is the copy of the incoming
      headers the proxy starts from. */
  function Decorate(s: Service, incoming: Headers, user: Claims): Headers
  {
    match s
    case Identity => IdentityHeaders(incoming)
    case Media => MediaHeaders(incoming, incoming, user)
    case _ => UserHeaders(incoming, user)
  }

  /** What the gateway does with a request that passed the rate limiter. */
  datatype Forward = Forwarded(service: Service, url: string, headers: Headers) | Refused(status: int) | Unrouted

  /** The gateway's handling of a request with path `path`, query string
      `query` (empty or starting with `?`) and headers `incoming`. */
  function Route(path: string, query: string, incoming: Headers, verify: string -> Option<Claims>): (f: Forward)
    ensures FindMount(path).None? <==> f.Unrouted?
    ensures f.Forwarded? ==> Some(f.service) == FindMount(path) && f.url == RewritePath(path + query)
    ensures f.Refused? ==> FindMount(path).Some? && Gated(FindMount(path).value) && f.status in {401, 429}
  {
    match FindMount(path)
    case None => Unrouted
    case Some(s) =>
      if !Gated(s) then Forwarded(s, RewritePath(path + query), IdentityHeaders(incoming))
      else match GatewayAuth.ValidateToken(Lookup(incoming, "authorization"), verify)
        case Reject(status) => Refused(status)
        case Next(user) => Forwarded(s, RewritePath(path + query), Decorate(s, incoming, user))
  }

  /** The auth mount never consults the token and forwards as JSON; an
      `x-user-id` the client sent reaches the identity service unchanged. */
  lemma AuthRouteUngated(path: string, query: string, incoming: Headers,
                         verify1: string -> Option<Claims>, verify2: string -> Option<Claims>)
    requires Mounted(path, MountPath(Identity))
    ensures Route(path, query, incoming, verify1) == Route(path, query, incoming, verify2)
    ensures var f := Route(path, query, incoming, verify1);
            && f.Forwarded? && f.service == Identity
            && Lookup(f.headers, "Content-Type") == Some(JsonType)
            && Lookup(f.headers, "x-user-id") == Lookup(incoming, "x-user-id")
  {
    MountFor(path, Identity);
  }

  /** A gated mount refuses a request without a token with 401 and one the
      verifier rejects with 429; otherwise it forwards the request with the
      verified user id, whatever `x-user-id` the client sent. */
  lemma GatedRouteDecision(path: string, query: string, incoming: Headers, verify: string -> Option<Claims>, s: Service)
    requires Gated(s) && Mounted(path, MountPath(s))
    ensures var header := Lookup(incoming, "authorization");
            var token := GatewayAuth.ExtractToken(header);
            var f := Route(path, query, incoming, verify);
            && (!GatewayAuth.HasToken(token) ==> f == Refused(401))
            && (GatewayAuth.HasToken(token) && verify(token.value).None? ==> f == Refused(429))
            && (GatewayAuth.HasToken(token) && verify(token.value).Some? ==>
                  && f.Forwarded? && f.service == s
                  && Lookup(f.headers, "x-user-id") == Some(verify(token.value).value.userId))
  {
    MountFor(path, s);
  }

  /** End to end: a media request the gateway forwards passes the media
      service's own gate as the user the token names. */
  lemma ForwardedMediaRequestAuthenticated(path: string, query: string, incoming: Headers,
                                           verify: string -> Option<Claims>)
    requires Mounted(path, MountPath(Media))
    requires Route(path, query, incoming, verify).Forwarded?
    ensures var f := Route(path, query, incoming, verify);
            var token := GatewayAuth.ExtractToken(Lookup(incoming, "authorization"));
            && GatewayAuth.HasToken(token) && verify(token.value).Some?
            && var user := verify(token.value).value;
               user.userId != "" ==> MediaAuth.AuthenticateRequest(Lookup(f.headers, "x-user-id")) == MediaAuth.Next(user.userId)
  {
    MountFor(path, Media);
  }

  /** The forwarded URL is the request URL under `/api` instead of `/v1`.
      This rests on the exact-case mounting of `Mounted`. */
  lemma ForwardedUnderApi(path: string, query: string, incoming: Headers, verify: string -> Option<Claims>)
    requires Route(path, query, incoming, verify).Forwarded?
    ensures var f := Route(path, query, incoming, verify);
            StartsWith(f.url, "/api/") && f.url[4..] == (path + query)[3..]
  {
    var s := FindMount(path).value;
    MountedVersioned(path, s);
    var url := path + query;
    assert url[..4] == path[..4];
    var r := RewritePath(url);
    assert r[4] == url[3];
  }

  /** Unlike the rewrite, mounting respects segments: `/v1/postsx` reaches
      no service. */
  lemma MountRespectsSegments()
    ensures FindMount("/v1/postsx").None?
  {
    var path := "/v1/postsx";
    NotMountedFifth(path, MountPath(Identity));
    NotMountedUnlessSlash(path, MountPath(Posts));
    NotMountedFifth(path, MountPath(Media));
    NotMountedFifth(path, MountPath(Search));
  }
}
