/** The HTTP transport the client drives, as records and an oracle.  The
    transport object answers each request with whatever its `server` function
    says for the requests sent so far, and keeps the list of requests it has
    sent, so that a caller can state how many requests an operation issued and
    what they carried. */
module Http {
  import opened Js

  /** A request header value: text, or the number given as `Content-Length`. */
  datatype HeaderValue = Text(text: string) | Count(count: nat)

  type Headers = map<string, HeaderValue>

  datatype Method = GET | POST

  /** `followRedirect: true` (redirects of GET requests) as set by `get`, or
      `followAllRedirects: true` (every redirect) as set by `post`. */
  datatype Redirects = FollowRedirect | FollowAllRedirects

  datatype Request = Request(
    verb: Method,
    uri: string,
    headers: Headers,
    body: Option<string>,
    redirects: Redirects)

  /** The headers of a response: the list under `set-cookie`, if any, and the
      rest, which the client only passes back to its caller. */
  datatype ResponseHeaders = ResponseHeaders(setCookie: Option<seq<string>>, others: map<string, string>)

  /** What the transport hands back: an error, or a response. */
  datatype Reply =
    | Failure(cause: string)
    | Response(statusCode: int, headers: ResponseHeaders, body: string)

  /** The `{statusCode, headers, body}` object a caller receives. */
  datatype Envelope = Envelope(statusCode: int, headers: ResponseHeaders, body: string)

  /** The remote side: its answer may depend on everything sent before. */
  type Server = (seq<Request>, Request) -> Reply

  class Transport {
    const server: Server
    var sent: seq<Request>

    constructor (server: Server)
      ensures this.server == server && sent == []
    {
      this.server := server;
      sent := [];
    }

    method Send(request: Request) returns (reply: Reply)
      modifies this
      ensures sent == old(sent) + [request]
      ensures reply == server(old(sent), request)
    {
      reply := server(sent, request);
      sent := sent + [request];
    }
  }
}
