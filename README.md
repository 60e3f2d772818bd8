# WSAPI client model

A Dafny model of the BrowserID WSAPI client, `server/lib/wsapi_client.js`.
Scripts use it to act as WSAPI clients. It keeps per-context state: a cookie
jar, the parsed session context and the time that session was fetched. It
fetches a CSRF token from `/wsapi/session_context` before any POST. It injects
the jar into outgoing requests, and it folds each response's `set-cookie`
headers back into the jar.

The project has four modules:

- `Js` (`js.dfy`): the JavaScript values the client handles. It covers
  truthiness, `typeof === 'object'`, and property reads and writes, which
  throw a TypeError on null and undefined.
- `CookieCodec` (`cookie_codec.dfy`): the cookie jar. A jar is a sequence of
  name/value entries in insertion order with distinct names, which is the
  observable behaviour of a plain object with string keys. The module also
  holds the `set-cookie` parser (the regex `^([^;]+)(?:;.*)$` and the split
  on `=`), the fold of a header list into a jar, and the `cookie` header line.
- `Http` (`http.dfy`): requests and replies. The transport is an object that
  records every request it sends. It answers from a `server` function of the
  requests sent so far.
- `WsapiClient` (`wsapi_client.dfy`):
  - A context is a class whose fields the operations update in place.
  - `InjectCookies`, `ExtractCookies`, `ClearCookies`, `GetCookie`, `Get`,
    `WithCsrf` (exported as getSessionContext) and `Post` are methods.
  - `GetSpec`, `WithCsrfSpec` and `PostSpec` give each call's outcome as a
    value. Each method is proved to produce exactly that outcome.
  - Lemmas state what those outcomes promise.

The source is callback-based. Here each call's callback argument is the
method's `Result`: `Ok` for `cb(null, x)` and `Err` for `cb(err)`.

Behaviour as the code has it, where a reader might expect otherwise:

- **A `set-cookie` string without `;` is ignored.** The regex requires a `;`
  after the name/value part, so `sid=xyz` on its own never reaches the jar.
  Only `sid=xyz; Path=/` and the like are stored.
- **The value stops at the second `=`.** `x[1]` of `split('=')` is the text
  between the first and second `=`, so `a=b=c;` stores `a` with value `b`.
  Without an `=` the value is undefined, and it is written back as
  `undefined`.
- **The `cookie` header has no separator.** The pairs are concatenated as
  `a=1b=2`. `CookieLineAmbiguous` shows two different jars that give the same
  line.
- **A failed negotiation still stores cookies.** A session-context response
  with a status other than 200 has its cookies extracted before the
  `'http error'` is raised.
- **A parsed session of `null` still changes the context.** `session` and
  `sessionStartedAt` are assigned before the read of `csrf_token` throws a
  TypeError.
- **clearCookies keeps `sessionStartedAt`.** It deletes the jar, and the
  session only when it is truthy.

## Model

| member | source | states |
|---|---|---|
| Js.GetProp | server/lib/wsapi_client.js:83 | reading a property fails with a TypeError exactly on null and undefined; an object yields its field, and a non-undefined result comes only from an object holding the key |
| Js.SetProp | server/lib/wsapi_client.js:113-115 | writing a property fails with a TypeError exactly on null and undefined; on an object the key is added or overwritten, reads back as the new value, and every other key keeps its value; any other value, arrays included, comes back unchanged |
| CookieCodec.Lookup | server/lib/wsapi_client.js:52 | `jar[name]` is absent exactly when no entry has that name, and otherwise is that entry's value |
| CookieCodec.Store | server/lib/wsapi_client.js:37 | `jar[name] = value`: afterwards the name reads back as the stored value and every other name reads as before |
| CookieCodec.StoreNames | server/lib/wsapi_client.js:37 | an existing key keeps its place in key order; a new key is appended at the end |
| CookieCodec.ParsedIffMatches | server/lib/wsapi_client.js:34-35 | a `set-cookie` string yields a cookie exactly when the regex matches: a non-empty run without `;` followed by `;` and then no line terminator |
| CookieCodec.ParsedShape | server/lib/wsapi_client.js:34-37 | the name and value contain no `;` or `=`; the string starts with `name;` (no value) or with `name=value` followed by `=` or `;` |
| CookieCodec.ParsedIsEchoable | server/lib/wsapi_client.js:34-37 | the name and value of every parsed cookie contain no `;` or `=`, and a name without a value is non-empty (`=x;` stores the empty name with value `x`) |
| CookieCodec.ParseSetCookieFor | server/lib/wsapi_client.js:34-37 | `name=value;` (or `name;` for an undefined value) parses back to exactly that cookie |
| CookieCodec.StoreAllAppend | server/lib/wsapi_client.js:30-41 | folding one list of parse results and then another gives the jar that folding their concatenation gives |
| CookieCodec.ParseAllAppend | server/lib/wsapi_client.js:33-34 | parsing two lists of `set-cookie` strings one after the other is parsing their concatenation |
| CookieCodec.LastWriteWins | server/lib/wsapi_client.js:33-39 | after the fold, a name holds the value of the last `set-cookie` string that wrote it |
| CookieCodec.OtherNamesUntouched | server/lib/wsapi_client.js:33-39 | a name that no string in the list writes keeps its previous value, or stays absent |
| CookieCodec.StoreAllKeepsOrder | server/lib/wsapi_client.js:33-39 | the fold never reorders or removes existing keys: the old key order is a prefix of the new one |
| CookieCodec.StoreAllKeys | server/lib/wsapi_client.js:33-39 | after the fold a key is present exactly when it was present before or some parsed string wrote it |
| CookieCodec.EchoRoundTrip | server/lib/wsapi_client.js:30-41 | echoing a jar of parsable entries as `set-cookie` strings and extracting them into an empty jar rebuilds the same jar, order included |
| CookieCodec.StoreAllEntries | server/lib/wsapi_client.js:33-39 | storing a jar's own entries one by one into an empty jar rebuilds the jar |
| CookieCodec.CookieLineAppend | server/lib/wsapi_client.js:24-26 | the cookie line of two consecutive runs of entries is the concatenation of their lines |
| CookieCodec.CookieLineAmbiguous | server/lib/wsapi_client.js:25 | the pairs are joined with no separator, so `a=1`,`b=2` and `a=1b=2` give the same header |
| CookieCodec.FirstMatch | server/lib/wsapi_client.js:50-54 | getCookie finds nothing exactly when no name satisfies the test; otherwise it finds the value of the first satisfying name in key order |
| CookieCodec.FirstMatchExactName | server/lib/wsapi_client.js:48-54 | testing names for equality with `name` finds exactly `jar[name]` |
| Http.Transport.constructor | server/lib/wsapi_client.js:67-72 | a fresh transport has sent nothing |
| Http.Transport.Send | server/lib/wsapi_client.js:67-72 | sending appends the request to the log and returns the server's answer to it |
| WsapiClient.Context.constructor | server/lib/wsapi_client.js:8-9 | a fresh context has no jar, no session and no start time |
| WsapiClient.InjectCookies | server/lib/wsapi_client.js:17-28 | an absent or empty jar leaves the headers alone; otherwise `cookie` is set to every `name=value` of the jar in key order and every other header is kept |
| WsapiClient.ExtractCookies | server/lib/wsapi_client.js:30-41 | the jar is created if absent, then every matching `set-cookie` string is stored in list order |
| WsapiClient.ClearCookies | server/lib/wsapi_client.js:43-46 | the jar is removed, the session is removed when truthy, the start time is kept, and a missing context is left alone |
| WsapiClient.GetCookie | server/lib/wsapi_client.js:48-55 | the result is the value of the first cookie name, in key order, that the test accepts, or nothing |
| WsapiClient.Get | server/lib/wsapi_client.js:59-80 | one GET carrying the jar's cookies and, for an object `getArgs`, the query string; a transport error is passed on with the jar untouched; otherwise the cookies are extracted and status, headers and body are returned |
| WsapiClient.WithCsrf | server/lib/wsapi_client.js:82-100 | a cached truthy token is returned with nothing sent; otherwise one session-context GET, whose parsed body becomes the session with the time recorded, and its `csrf_token` is returned; transport, status and parse failures are reported |
| WsapiClient.Post | server/lib/wsapi_client.js:104-135 | negotiation first, with its error passed on; then `postArgs.csrf` is set for objects, the JSON body is sent with the jar's cookies, `Content-Type` and `Content-Length`, and the response's cookies are extracted |
| WsapiClient.ExtractTwice | server/lib/wsapi_client.js:30-41 | two responses extracted in turn leave the jar one response carrying both `set-cookie` lists in order would leave, so last-write-wins holds across every request of a context |
| WsapiClient.ClearIdempotent | server/lib/wsapi_client.js:43-46 | clearing an already cleared context changes nothing |
| WsapiClient.ClearedStartsAnonymous | server/lib/wsapi_client.js:43-46 | after a clear, the next request carries no `cookie` header and the next negotiation fetches a new session |
| WsapiClient.CachedTokenSkipsNetwork | server/lib/wsapi_client.js:83-86 | with a truthy session holding a truthy `csrf_token`, that token is returned, nothing is sent and the context is unchanged |
| WsapiClient.NegotiationSendsOneGet | server/lib/wsapi_client.js:88 | without a cached token exactly one request is sent: a GET of `/wsapi/session_context` with the context's cookies |
| WsapiClient.NegotiationFailureKeepsSession | server/lib/wsapi_client.js:88-98 | a transport error, a status other than 200 or an unparsable body leaves session and start time unchanged and is reported as the matching error; cookies of any response are stored |
| WsapiClient.NegotiationSuccessCaches | server/lib/wsapi_client.js:90-94 | a parsed 200 body becomes the session with the start time `now`, its `csrf_token` is the result, and a truthy token makes the next negotiation send nothing |
| WsapiClient.NoPostWithoutToken | server/lib/wsapi_client.js:105-106 | when negotiation fails no POST is sent, the caller gets the negotiation's error and `postArgs` is not modified |
| WsapiClient.PostSendsTokenAndCookies | server/lib/wsapi_client.js:105-125 | with a token and an object `postArgs`, exactly one POST follows the negotiation; its body carries `csrf`, its cookies are those negotiation left, its `Content-Length` is the body's length, and one or two requests are sent in total |
| WsapiClient.SecondPostSkipsNegotiation | server/lib/wsapi_client.js:83-86 | after a post whose negotiation obtained a truthy token, the next negotiation on that context sends nothing and returns the same token |

## Left out

- The HTTP library's own work is not modelled: URL handling, redirects, `jar: false` and the wire format. The transport is an oracle that answers each request from the requests sent before it.
- JSON.parse, JSON.stringify and querystring.stringify are opaque functions given as parameters. JSON.parse throwing is modelled as `None`, reported as a SyntaxError.
- `new Date().getTime()` is the parameter `now`.
- console.log output is not modelled.
- Callbacks and concurrency are not modelled. Each call runs to completion as one sequential update, so interleaved calls on one context are out of scope.
- WsapiClient.GetCookie: the source's branch for a string `which` constructs `new Regex(...)`, which is not defined, so that call throws a ReferenceError. Only the branch for a tester is modelled, as a predicate on names.
- WsapiClient.GetCookie: requires a jar to exist. The source throws a TypeError from `Object.keys(undefined)` when there is none, and that error path is not modelled.
- WsapiClient.InjectCookies, WsapiClient.Get, WsapiClient.WithCsrf, WsapiClient.Post: take a context that exists. With a null or undefined context the source throws a TypeError straight to the caller, at the read of `cookieJar` or `session`, and that error path is not modelled. Only clearCookies tolerates a missing context, and WsapiClient.ClearCookies models that case.
- WsapiClient.InjectCookies: returns the new headers instead of mutating the caller's object in place. Every caller in the source passes a fresh object, so no aliasing is lost.
- WsapiClient.Post: returns the modified `postArgs` as `args` instead of mutating the caller's object. The source reports a TypeError on null or undefined `postArgs` by throwing from inside the negotiation callback: for null the `csrf` write throws, and for undefined reading the length of `JSON.stringify(undefined)` throws. On the network path the negotiation's `catch` turns that throw into `cb(err)`. On the cached-token path that throw reaches post's own caller synchronously; the model reports it as `Err(TypeError)` on every path.
- JavaScript's key order puts integer-like keys such as `"1"` first, in numeric order. The jar keeps insertion order for every key.
- `Content-Length` is the length of the body in code points here. In the source it is the number of UTF-16 code units, which differs for characters outside the Basic Multilingual Plane.
- Numbers are integers, object key order is not modelled, named properties of arrays are not modelled, and the special `__proto__` key is treated as an ordinary key.
