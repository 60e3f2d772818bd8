/** The WSAPI client: per-context cookie and session state, CSRF negotiation,
    and GET/POST calls wrapped with cookie injection and extraction.

    A context is a plain object the caller owns; it holds `cookieJar`,
    `session` (the parsed body of `/wsapi/session_context`) and
    `sessionStartedAt`.  Every operation below is one sequential update of a
    context and, for the calls, of the transport's list of sent requests.  The
    functions `GetSpec`, `WithCsrfSpec` and `PostSpec` give each call's outcome
    as a value; the methods are proved to produce exactly that outcome, and the
    lemmas state what the outcomes promise. */
module WsapiClient {
  import opened Js
  import opened CookieCodec
  import opened Http

  /** `cfg.browserid`, the base URL every path is appended to. */
  datatype Config = Config(browserid: string)

  /** JSON.parse (None when it throws), JSON.stringify and
      querystring.stringify, taken as given. */
  datatype Codecs = Codecs(
    parse: string -> Option<JsValue>,
    stringify: JsValue -> string,
    querystring: JsValue -> string)

  const SessionContextPath := "/wsapi/session_context"
  const CookieHeader := "cookie"
  const CsrfTokenField := "csrf_token"
  const CsrfField := "csrf"

  /** The fields of a context the client reads and writes.  `session` is
      `Undefined` while the property is absent. */
  datatype Snapshot = Snapshot(cookieJar: Option<Jar>, session: JsValue, sessionStartedAt: Option<int>)

  class Context {
    var cookieJar: Option<Jar>
    var session: JsValue
    var sessionStartedAt: Option<int>

    /** A fresh `{}`. */
    constructor ()
      ensures State() == Snapshot(None, Undefined, None)
    {
      cookieJar := None;
      session := Undefined;
      sessionStartedAt := None;
    }

    function State(): Snapshot
      reads this
    {
      Snapshot(cookieJar, session, sessionStartedAt)
    }
  }

  // ---------------------------------------------------------------------
  // The outcome of each operation, as a value

  /** The headers after injectCookies: a non-empty jar sets `cookie`. */
  function WithCookies(jar: Option<Jar>, headers: Headers): Headers {
    if jar.Some? && jar.value != [] then headers[CookieHeader := Text(CookieLine(jar.value))] else headers
  }

  /** The jar after extractCookies: created empty if absent, then every
      `set-cookie` string folded in. */
  function Extracted(jar: Option<Jar>, headers: ResponseHeaders): Jar {
    ApplySetCookies(jar.GetOr([]), headers.setCookie.GetOr([]))
  }

  /** clearCookies: the jar is deleted, and the session too when it is truthy;
      `sessionStartedAt` stays. */
  function Cleared(s: Snapshot): Snapshot {
    s.(cookieJar := None, session := if Truthy(s.session) then Undefined else s.session)
  }

  /** The token withCSRF reuses: the session's `csrf_token`, provided both
      the session and that token are truthy. */
  function CachedToken(session: JsValue): Option<JsValue> {
    if !Truthy(session) then None
    else
      var token := GetProp(session, CsrfTokenField);
      if token.Ok? && Truthy(token.value) then Some(token.value) else None
  }

  /** What an operation leaves behind: the context, the requests sent so far,
      and what the callback receives. */
  datatype Step<+T> = Step(state: Snapshot, sent: seq<Request>, result: Result<T>)

  /** Send one request; on a transport error report it and leave the jar
      alone, otherwise fold the response's cookies in and hand back its
      status, headers and body. */
  function Exchange(s: Snapshot, sent: seq<Request>, server: Server, request: Request): Step<Envelope> {
    match server(sent, request)
    case Failure(cause) => Step(s, sent + [request], Err(TransportError(cause)))
    case Response(code, headers, body) =>
      Step(s.(cookieJar := Some(Extracted(s.cookieJar, headers))), sent + [request],
           Ok(Envelope(code, headers, body)))
  }

  /** The request `get` issues: the context's cookies, and the query string
      when `getArgs` is of type 'object'. */
  function GetRequest(cfg: Config, path: string, getArgs: JsValue, jar: Option<Jar>, codecs: Codecs): Request {
    var target := if IsObjectType(getArgs) then path + "?" + codecs.querystring(getArgs) else path;
    Request(GET, cfg.browserid + target, WithCookies(jar, map[]), None, FollowRedirect)
  }

  function GetSpec(s: Snapshot, sent: seq<Request>, server: Server, cfg: Config, path: string,
                   getArgs: JsValue, codecs: Codecs): Step<Envelope>
  {
    Exchange(s, sent, server, GetRequest(cfg, path, getArgs, s.cookieJar, codecs))
  }

  /** withCSRF: the cached token without any request, or one GET of the
      session context whose parsed body becomes the session. */
  function WithCsrfSpec(s: Snapshot, sent: seq<Request>, server: Server, cfg: Config,
                        codecs: Codecs, now: int): Step<JsValue>
  {
    match CachedToken(s.session)
    case Some(token) => Step(s, sent, Ok(token))
    case None =>
      var g := GetSpec(s, sent, server, cfg, SessionContextPath, Undefined, codecs);
      if g.result.Err? then Step(g.state, g.sent, Err(g.result.error))
      else if g.result.value.statusCode != 200 then Step(g.state, g.sent, Err(HttpError))
      else
        match codecs.parse(g.result.value.body)
        case None => Step(g.state, g.sent, Err(SyntaxError))
        case Some(session) =>
          Step(g.state.(session := session, sessionStartedAt := Some(now)), g.sent,
               GetProp(session, CsrfTokenField))
  }

  /** The arguments with their `csrf` property set to the token when they
      are of type 'object' (null included, which fails); any other value is
      passed through unchanged. */
  function WithCsrfField(postArgs: JsValue, csrf: JsValue): Result<JsValue> {
    if IsObjectType(postArgs) then SetProp(postArgs, CsrfField, csrf) else Ok(postArgs)
  }

  /** The request `post` issues once it has a token and a serialized body. */
  function PostRequest(cfg: Config, path: string, jar: Option<Jar>, body: string): Request {
    var headers := WithCookies(jar, map["Content-Type" := Text("application/json")]);
    Request(POST, cfg.browserid + path, headers["Content-Length" := Count(|body|)], Some(body), FollowAllRedirects)
  }

  function PostSpec(s: Snapshot, sent: seq<Request>, server: Server, cfg: Config, path: string,
                    postArgs: JsValue, codecs: Codecs, now: int): Step<Envelope>
  {
    var n := WithCsrfSpec(s, sent, server, cfg, codecs, now);
    if n.result.Err? then Step(n.state, n.sent, Err(n.result.error))
    else
      match WithCsrfField(postArgs, n.result.value)
      case Err(e) => Step(n.state, n.sent, Err(e))
      case Ok(args) =>
        // JSON.stringify(undefined) is undefined, and reading its length throws
        if args.Undefined? then Step(n.state, n.sent, Err(TypeError))
        else Exchange(n.state, n.sent, server, PostRequest(cfg, path, n.state.cookieJar, codecs.stringify(args)))
  }

  /** The caller's `postArgs` after `post`: it gains the token once one was
      obtained. */
  function ArgsAfterPost(s: Snapshot, sent: seq<Request>, server: Server, cfg: Config,
                         postArgs: JsValue, codecs: Codecs, now: int): JsValue
  {
    var n := WithCsrfSpec(s, sent, server, cfg, codecs, now);
    if n.result.Ok? && WithCsrfField(postArgs, n.result.value).Ok? then
      WithCsrfField(postArgs, n.result.value).value
    else postArgs
  }

  // ---------------------------------------------------------------------
  // The operations

  /** injectCookies: sets the `cookie` header to every `name=value` of the
      jar, in jar order, when the jar exists and is not empty. */
  method InjectCookies(ctx: Context, headers: Headers) returns (out: Headers)
    ensures ctx.cookieJar.None? || ctx.cookieJar.value == [] ==> out == headers
    ensures ctx.cookieJar.Some? && ctx.cookieJar.value != [] ==>
      out.Keys == headers.Keys + {CookieHeader} &&
      out[CookieHeader] == Text(CookieLine(ctx.cookieJar.value)) &&
      forall k :: k in headers && k != CookieHeader ==> out[k] == headers[k]
  {
    out := headers;
    if ctx.cookieJar.Some? && |ctx.cookieJar.value| > 0 {
      var jar := ctx.cookieJar.value;
      out := out[CookieHeader := Text("")];
      for i := 0 to |jar|
        invariant out == headers[CookieHeader := Text(CookieLine(jar[..i]))]
      {
        CookieLineAppend(jar[..i], [jar[i]]);
        assert jar[..i + 1] == jar[..i] + [jar[i]];
        assert CookieLine([jar[i]]) == Pair(jar[i]);
        out := out[CookieHeader := Text(out[CookieHeader].text + (jar[i].name + "=" + Render(jar[i].value)))];
      }
      assert jar[..|jar|] == jar;
    }
  }

  /** extractCookies: makes sure a jar exists, then stores every matching
      `set-cookie` string into it, in list order. */
  method ExtractCookies(ctx: Context, headers: ResponseHeaders)
    modifies ctx`cookieJar
    ensures ctx.cookieJar == Some(Extracted(old(ctx.cookieJar), headers))
  {
    if ctx.cookieJar.None? {
      ctx.cookieJar := Some([]);
    }
    if headers.setCookie.Some? {
      var list := headers.setCookie.value;
      ghost var start := ctx.cookieJar.value;
      for i := 0 to |list|
        invariant ctx.cookieJar == Some(StoreAll(start, ParseAll(list)[..i]))
      {
        assert ParseAll(list)[..i + 1][..i] == ParseAll(list)[..i];
        var m := ParseSetCookie(list[i]);
        if m.Some? {
          ctx.cookieJar := Some(Store(ctx.cookieJar.value, m.value));
        }
      }
      assert ParseAll(list)[..|list|] == ParseAll(list);
    }
  }

  /** clearCookies: a missing context is left alone. */
  method ClearCookies(ctx: Context?)
    modifies ctx
    ensures ctx != null ==> ctx.State() == Cleared(old(ctx.State()))
  {
    if ctx != null && ctx.cookieJar.Some? {
      ctx.cookieJar := None;
    }
    if ctx != null && Truthy(ctx.session) {
      ctx.session := Undefined;
    }
  }

  /** getCookie with a predicate over names: the value of the first key, in
      key order, that satisfies it. */
  method GetCookie(ctx: Context, which: string -> bool) returns (r: CookieLookup)
    requires ctx.cookieJar.Some?
    ensures r == FirstMatch(ctx.cookieJar.value, which)
  {
    var jar := ctx.cookieJar.value;
    var cookieNames := Names(jar);
    for i := 0 to |cookieNames|
      invariant forall j :: 0 <= j < i ==> !which(jar[j].name)
    {
      if which(cookieNames[i]) {
        return Lookup(jar, cookieNames[i]);
      }
    }
    return NotFound;
  }

  method Get(cfg: Config, path: string, ctx: Context, getArgs: JsValue, net: Transport, codecs: Codecs)
    returns (r: Result<Envelope>)
    modifies ctx`cookieJar, net
    ensures var g := GetSpec(old(ctx.State()), old(net.sent), net.server, cfg, path, getArgs, codecs);
      ctx.State() == g.state && net.sent == g.sent && r == g.result
  {
    var headers := InjectCookies(ctx, map[]);
    assert headers == WithCookies(ctx.cookieJar, map[]);
    var target := path;
    if IsObjectType(getArgs) {
      target := target + "?" + codecs.querystring(getArgs);
    }
    var reply := net.Send(Request(GET, cfg.browserid + target, headers, None, FollowRedirect));
    if reply.Failure? {
      return Err(TransportError(reply.cause));
    }
    ExtractCookies(ctx, reply.headers);
    r := Ok(Envelope(reply.statusCode, reply.headers, reply.body));
  }

  /** withCSRF, exported as getSessionContext. */
  method WithCsrf(cfg: Config, ctx: Context, net: Transport, codecs: Codecs, now: int)
    returns (r: Result<JsValue>)
    modifies ctx, net
    ensures var n := WithCsrfSpec(old(ctx.State()), old(net.sent), net.server, cfg, codecs, now);
      ctx.State() == n.state && net.sent == n.sent && r == n.result
  {
    if Truthy(ctx.session) {
      var token := GetProp(ctx.session, CsrfTokenField);
      if token.Ok? && Truthy(token.value) {
        return Ok(token.value);
      }
    }
    var res := Get(cfg, SessionContextPath, ctx, Undefined, net, codecs);
    if res.Err? {
      return Err(res.error);
    }
    if res.value.statusCode != 200 {
      return Err(HttpError);
    }
    var parsed := codecs.parse(res.value.body);
    if parsed.None? {
      return Err(SyntaxError);
    }
    ctx.session := parsed.value;
    ctx.sessionStartedAt := Some(now);
    r := GetProp(ctx.session, CsrfTokenField);
  }

  /** post: negotiates a token first; returns the call's result and the
      caller's `postArgs` as the call leaves it. */
  method Post(cfg: Config, path: string, ctx: Context, postArgs: JsValue, net: Transport,
              codecs: Codecs, now: int)
    returns (r: Result<Envelope>, args: JsValue)
    modifies ctx, net
    ensures var p := PostSpec(old(ctx.State()), old(net.sent), net.server, cfg, path, postArgs, codecs, now);
      ctx.State() == p.state && net.sent == p.sent && r == p.result
    ensures args == ArgsAfterPost(old(ctx.State()), old(net.sent), net.server, cfg, postArgs, codecs, now)
  {
    args := postArgs;
    var csrf := WithCsrf(cfg, ctx, net, codecs, now);
    if csrf.Err? {
      return Err(csrf.error), args;
    }
    var headers := InjectCookies(ctx, map["Content-Type" := Text("application/json")]);
    assert headers == WithCookies(ctx.cookieJar, map["Content-Type" := Text("application/json")]);
    if IsObjectType(args) {
      var withToken := SetProp(args, CsrfField, csrf.value);
      if withToken.Err? {
        return Err(withToken.error), args;
      }
      args := withToken.value;
    }
    if args.Undefined? {
      return Err(TypeError), args;
    }
    var body := codecs.stringify(args);
    headers := headers["Content-Length" := Count(|body|)];
    var reply := net.Send(Request(POST, cfg.browserid + path, headers, Some(body), FollowAllRedirects));
    if reply.Failure? {
      return Err(TransportError(reply.cause)), args;
    }
    ExtractCookies(ctx, reply.headers);
    r := Ok(Envelope(reply.statusCode, reply.headers, reply.body));
  }

  // ---------------------------------------------------------------------
  // What the outcomes promise

  /** Two responses extracted one after the other leave the jar that one
      response carrying both `set-cookie` lists, in order, would leave; so the
      jar holds, for every name, the value of the most recent `set-cookie`
      across the context's requests. */
  lemma ExtractTwice(jar: Option<Jar>, first: ResponseHeaders, second: ResponseHeaders)
    ensures Extracted(Some(Extracted(jar, first)), second) ==
      ApplySetCookies(jar.GetOr([]), first.setCookie.GetOr([]) + second.setCookie.GetOr([]))
  {
    var a := first.setCookie.GetOr([]);
    var b := second.setCookie.GetOr([]);
    StoreAllAppend(jar.GetOr([]), ParseAll(a), ParseAll(b));
    ParseAllAppend(a, b);
  }

  /** Clearing twice is clearing once. */
  lemma ClearIdempotent(s: Snapshot)
    ensures Cleared(Cleared(s)) == Cleared(s)
  {
  }

  /** After a clear the next request carries no `cookie` header, and the next
      negotiation cannot use a cached token. */
  lemma ClearedStartsAnonymous(s: Snapshot, cfg: Config, path: string, getArgs: JsValue, codecs: Codecs)
    ensures CookieHeader !in GetRequest(cfg, path, getArgs, Cleared(s).cookieJar, codecs).headers
    ensures CachedToken(Cleared(s).session).None?
  {
  }

  /** A cached token is returned without any request and without touching
      the context. */
  lemma CachedTokenSkipsNetwork(s: Snapshot, sent: seq<Request>, server: Server, cfg: Config,
                                codecs: Codecs, now: int)
    requires CachedToken(s.session).Some?
    ensures WithCsrfSpec(s, sent, server, cfg, codecs, now) == Step(s, sent, Ok(CachedToken(s.session).value))
  {
  }

  /** Without a cached token exactly one request goes out: a GET of the
      session context, carrying the context's cookies. */
  lemma NegotiationSendsOneGet(s: Snapshot, sent: seq<Request>, server: Server, cfg: Config,
                               codecs: Codecs, now: int)
    requires CachedToken(s.session).None?
    ensures var request := GetRequest(cfg, SessionContextPath, Undefined, s.cookieJar, codecs);
      WithCsrfSpec(s, sent, server, cfg, codecs, now).sent == sent + [request] &&
      request.verb == GET && request.uri == cfg.browserid + SessionContextPath &&
      request.headers == WithCookies(s.cookieJar, map[])
  {
  }

  /** A negotiation that fails on the transport, on the status or on the body
      leaves `session` and `sessionStartedAt` as they were; the cookies of a
      response are stored even when its status is not 200. */
  lemma NegotiationFailureKeepsSession(s: Snapshot, sent: seq<Request>, server: Server, cfg: Config,
                                       codecs: Codecs, now: int)
    requires CachedToken(s.session).None?
    requires var reply := server(sent, GetRequest(cfg, SessionContextPath, Undefined, s.cookieJar, codecs));
      reply.Failure? || reply.statusCode != 200 || codecs.parse(reply.body).None?
    ensures var n := WithCsrfSpec(s, sent, server, cfg, codecs, now);
      n.result.Err? && n.state.session == s.session && n.state.sessionStartedAt == s.sessionStartedAt
    ensures var n := WithCsrfSpec(s, sent, server, cfg, codecs, now);
      var reply := server(sent, GetRequest(cfg, SessionContextPath, Undefined, s.cookieJar, codecs));
      match reply
      case Failure(cause) => n.state.cookieJar == s.cookieJar && n.result == Err(TransportError(cause))
      case Response(code, headers, _) =>
        n.state.cookieJar == Some(Extracted(s.cookieJar, headers)) &&
        n.result == Err(if code != 200 then HttpError else SyntaxError)
  {
  }

  /** A successful negotiation stores the parsed body as the session, records
      the time, and answers with the body's `csrf_token`.  When that token is
      truthy it is cached: negotiating again sends nothing. */
  lemma NegotiationSuccessCaches(s: Snapshot, sent: seq<Request>, server: Server, cfg: Config,
                                 codecs: Codecs, now: int, later: int)
    requires CachedToken(s.session).None?
    requires var reply := server(sent, GetRequest(cfg, SessionContextPath, Undefined, s.cookieJar, codecs));
      reply.Response? && reply.statusCode == 200 && codecs.parse(reply.body).Some?
    ensures var n := WithCsrfSpec(s, sent, server, cfg, codecs, now);
      var reply := server(sent, GetRequest(cfg, SessionContextPath, Undefined, s.cookieJar, codecs));
      n.state.session == codecs.parse(reply.body).value && n.state.sessionStartedAt == Some(now) &&
      n.result == GetProp(n.state.session, CsrfTokenField)
    ensures var n := WithCsrfSpec(s, sent, server, cfg, codecs, now);
      n.result.Ok? && Truthy(n.result.value) ==>
        WithCsrfSpec(n.state, n.sent, server, cfg, codecs, later) == Step(n.state, n.sent, n.result)
  {
  }

  /** When negotiation fails no POST is sent: the requests are those of the
      negotiation alone, and its error is what the caller receives. */
  lemma NoPostWithoutToken(s: Snapshot, sent: seq<Request>, server: Server, cfg: Config, path: string,
                           postArgs: JsValue, codecs: Codecs, now: int)
    requires WithCsrfSpec(s, sent, server, cfg, codecs, now).result.Err?
    ensures var n := WithCsrfSpec(s, sent, server, cfg, codecs, now);
      var p := PostSpec(s, sent, server, cfg, path, postArgs, codecs, now);
      p.state == n.state && p.sent == n.sent && p.result == Err(n.result.error)
    ensures var p := PostSpec(s, sent, server, cfg, path, postArgs, codecs, now);
      forall i :: |sent| <= i < |p.sent| ==> p.sent[i].verb == GET
    ensures ArgsAfterPost(s, sent, server, cfg, postArgs, codecs, now) == postArgs
  {
    var n := WithCsrfSpec(s, sent, server, cfg, codecs, now);
    if CachedToken(s.session).None? {
      NegotiationSendsOneGet(s, sent, server, cfg, codecs, now);
    }
  }

  /** With a token and an object as `postArgs`, post sends, after whatever the
      negotiation sent, exactly one POST: its body is the arguments with
      `csrf` set to the token, its `cookie` header comes from the jar as the
      negotiation left it, and its `Content-Length` is the body's length. */
  lemma PostSendsTokenAndCookies(s: Snapshot, sent: seq<Request>, server: Server, cfg: Config, path: string,
                                 postArgs: JsValue, codecs: Codecs, now: int)
    requires WithCsrfSpec(s, sent, server, cfg, codecs, now).result.Ok?
    requires postArgs.Obj?
    ensures var n := WithCsrfSpec(s, sent, server, cfg, codecs, now);
      var args := Obj(postArgs.fields[CsrfField := n.result.value]);
      var body := codecs.stringify(args);
      var p := PostSpec(s, sent, server, cfg, path, postArgs, codecs, now);
      ArgsAfterPost(s, sent, server, cfg, postArgs, codecs, now) == args &&
      p.sent == n.sent + [PostRequest(cfg, path, n.state.cookieJar, body)] &&
      p.sent[|p.sent| - 1].verb == POST &&
      p.sent[|p.sent| - 1].body == Some(body) &&
      p.sent[|p.sent| - 1].headers["Content-Length"] == Count(|body|) &&
      p.sent[|p.sent| - 1].headers == WithCookies(n.state.cookieJar, map["Content-Type" := Text("application/json")])["Content-Length" := Count(|body|)]
    ensures var p := PostSpec(s, sent, server, cfg, path, postArgs, codecs, now);
      |p.sent| == |sent| + (if CachedToken(s.session).Some? then 1 else 2)
  {
    if CachedToken(s.session).None? {
      NegotiationSendsOneGet(s, sent, server, cfg, codecs, now);
    }
  }

  /** A post whose negotiation obtained a truthy token leaves it cached, so a
      second post on the same context sends its POST and nothing else. */
  lemma SecondPostSkipsNegotiation(s: Snapshot, sent: seq<Request>, server: Server, cfg: Config,
                                   path: string, postArgs: JsValue, path2: string, postArgs2: JsValue,
                                   codecs: Codecs, now: int, later: int)
    requires var n := WithCsrfSpec(s, sent, server, cfg, codecs, now);
      n.result.Ok? && Truthy(n.result.value)
    ensures var n := WithCsrfSpec(s, sent, server, cfg, codecs, now);
      var p := PostSpec(s, sent, server, cfg, path, postArgs, codecs, now);
      WithCsrfSpec(p.state, p.sent, server, cfg, codecs, later) == Step(p.state, p.sent, n.result)
  {
    var n := WithCsrfSpec(s, sent, server, cfg, codecs, now);
    if CachedToken(s.session).None? {
      NegotiationSuccessCaches(s, sent, server, cfg, codecs, now, later);
    }
    assert CachedToken(n.state.session) == Some(n.result.value);
  }
}
