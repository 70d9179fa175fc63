/** The `send-gmail` edge function (supabase/functions/send-gmail/index.ts):
    request handling, the outcome of the OAuth2 refresh-token grant
    (section 6 of RFC 6749), the RFC 2822 message with its one-part MIME
    multipart body (section 5.1.1 of RFC 2046), and the call to the Gmail
    send endpoint. Environment variables, the random boundary suffix and the
    replies of the two HTTP endpoints are inputs; the handler reports the
    outgoing calls it makes as a trace. */
module SendGmail {
  import opened Wrappers
  import Utf8
  import Base64Url

  datatype EmailRequest = EmailRequest(to: string, subject: string, html: string, from: Option<string>)

  /** `body` is the parsed JSON, or the message of the error `req.json()` throws. */
  datatype Request = Request(verb: string, body: Result<EmailRequest, string>)

  /** `Deno.env.get(…)` for the four variables. */
  datatype Env = Env(gmailUser: Option<string>, clientId: Option<string>, clientSecret: Option<string>,
                     refreshToken: Option<string>)

  /** JavaScript truthiness of a `string | undefined`. */
  predicate Truthy(v: Option<string>) {
    v.Some? && v.value != ""
  }

  predicate Configured(env: Env) {
    Truthy(env.gmailUser) && Truthy(env.clientId) && Truthy(env.clientSecret) && Truthy(env.refreshToken)
  }

  /** What the token endpoint did: a reply with its status and the
      `access_token` field of its JSON (None when absent or unreadable), or a
      thrown fetch. */
  datatype TokenReply = TokenReply(status: int, accessToken: Option<string>) | TokenFetchError

  /** What the Gmail send endpoint did. */
  datatype SendReply = SendReply(status: nat, statusText: string, id: Option<string>) | SendFetchError(message: string)

  /** `response.ok` */
  predicate Ok2xx(status: int) {
    200 <= status < 300
  }

  /** `getOAuth2AccessToken`: a token only from a 2xx reply that carries
      one; a non-2xx reply or a thrown fetch gives null. */
  function GetOAuth2AccessToken(reply: TokenReply): (t: Option<string>)
    ensures t.Some? <==> reply.TokenReply? && Ok2xx(reply.status) && reply.accessToken.Some?
    ensures t.Some? ==> t == reply.accessToken
  {
    match reply
    case TokenFetchError => None
    case TokenReply(status, accessToken) => if Ok2xx(status) then accessToken else None
  }

  /** `from || gmailUser` */
  function Sender(from: Option<string>, gmailUser: string): (r: string)
    ensures Truthy(from) ==> r == from.value
    ensures !Truthy(from) ==> r == gmailUser
  {
    if Truthy(from) then from.value else gmailUser
  }

  /** `lines.join('\r\n')` */
  function Join(lines: seq<string>): string {
    if |lines| == 0 then "" else if |lines| == 1 then lines[0] else lines[0] + "\r\n" + Join(lines[1..])
  }

  function Boundary(random: string): string {
    "boundary_" + random
  }

  /** The ten lines before the html: the message headers, a blank line,
      the opening delimiter, the part headers and the blank line that ends
      them. */
  function HeadLines(from: string, to: string, subject: string, boundary: string): seq<string> {
    [ "From: " + from,
      "To: " + to,
      "Subject: " + subject,
      "MIME-Version: 1.0",
      "Content-Type: multipart/alternative; boundary=\"" + boundary + "\"",
      "",
      "--" + boundary,
      "Content-Type: text/html; charset=UTF-8",
      "Content-Transfer-Encoding: quoted-printable",
      "" ]
  }

  /** The close delimiter of the multipart body. */
  function CloseDelimiter(boundary: string): string {
    "--" + boundary + "--"
  }

  function RawLines(from: string, to: string, subject: string, html: string, boundary: string): seq<string> {
    HeadLines(from, to, subject, boundary) + [html, "", CloseDelimiter(boundary)]
  }

  /** The raw message of `sendGmailEmail`. */
  function RawMessage(from: string, to: string, subject: string, html: string, boundary: string): string {
    Join(RawLines(from, to, subject, html, boundary))
  }

  /** Lines each followed by CRLF. */
  function Terminated(lines: seq<string>): string {
    if lines == [] then "" else lines[0] + "\r\n" + Terminated(lines[1..])
  }

  /** Joining splits at any line: the lines before it each end in CRLF. */
  lemma {:induction false} JoinSplit(lines: seq<string>, n: nat)
    requires n < |lines|
    ensures Join(lines) == Terminated(lines[..n]) + Join(lines[n..])
  {
    if n == 0 {
      assert lines[..0] == [] && lines[0..] == lines;
    } else {
      var rest := lines[1..];
      JoinSplit(rest, n - 1);
      assert rest[..n - 1] == lines[..n][1..];
      assert rest[n - 1..] == lines[n..];
      assert lines[..n][0] == lines[0];
    }
  }

  /** The raw message is the ten head lines, each ending in CRLF, then the
      html exactly as given (no transfer encoding is applied), a blank line
      and the close delimiter; the head does not depend on the html. */
  lemma RawMessageShape(from: string, to: string, subject: string, html: string, boundary: string)
    ensures RawMessage(from, to, subject, html, boundary)
         == Terminated(HeadLines(from, to, subject, boundary)) + html + "\r\n" + "\r\n" + CloseDelimiter(boundary)
  {
    var ls := RawLines(from, to, subject, html, boundary);
    JoinSplit(ls, 10);
    assert ls[..10] == HeadLines(from, to, subject, boundary);
    var tail := ls[10..];
    assert tail == [html, "", CloseDelimiter(boundary)];
    assert tail[1..][1..] == [CloseDelimiter(boundary)];
    assert Join(tail[1..][1..]) == CloseDelimiter(boundary);
    assert Join(tail[1..]) == "" + "\r\n" + CloseDelimiter(boundary);
    assert Join(tail) == html + "\r\n" + Join(tail[1..]);
  }

  /** Decimal digits of a status code, as template literals print it. */
  function Decimal(n: nat): (r: string)
    ensures r != [] && forall i :: 0 <= i < |r| ==> '0' <= r[i] <= '9'
  {
    if n < 10 then [('0' as int + n) as char] else Decimal(n / 10) + [('0' as int + n % 10) as char]
  }

  /** `sendGmailEmail`: a thrown fetch is rethrown, a non-2xx reply throws
      "Gmail API error: {status} {statusText}", a 2xx reply gives its
      JSON (of which the handler uses `id`). */
  function SendOutcome(reply: SendReply): (r: Result<Option<string>, string>)
    ensures r.Ok? <==> reply.SendReply? && Ok2xx(reply.status)
    ensures r.Ok? ==> r.value == reply.id
  {
    match reply
    case SendFetchError(message) => Err(message)
    case SendReply(status, statusText, id) =>
      if Ok2xx(status) then Ok(id) else Err("Gmail API error: " + Decimal(status) + " " + statusText)
  }

  const CorsHeaders: seq<(string, string)> :=
    [("Access-Control-Allow-Origin", "*"),
     ("Access-Control-Allow-Headers", "authorization, x-client-info, apikey, content-type")]

  const JsonHeaders: seq<(string, string)> := [("Content-Type", "application/json")] + CorsHeaders

  datatype Details = Details(to: string, subject: string, from: string)

  /** The JSON body the handler writes. */
  datatype Body = Body(success: bool, message: string, error: Option<string>, messageId: Option<string>,
                       details: Option<Details>)

  /** `body` is None for the empty preflight reply. */
  datatype Response = Response(status: nat, headers: seq<(string, string)>, body: Option<Body>)

  /** An outgoing HTTP call: the refresh-token grant, or the Gmail send with
      its bearer token and the `raw` field of its JSON body. */
  datatype Call =
    | TokenCall(clientId: string, clientSecret: string, refreshToken: string)
    | SendCall(accessToken: string, raw: string)

  const MissingCredentials := "Missing GMAIL_USER, GMAIL_CLIENT_ID, GMAIL_CLIENT_SECRET, or GMAIL_REFRESH_TOKEN environment variables"

  function Failure(error: string): Response {
    Response(500, JsonHeaders, Some(Body(false, "Failed to send email", Some(error), None, None)))
  }

  /** The edge function's `handler`. The replies of the two endpoints and the
      random boundary suffix are inputs; `calls` lists, in order, the calls
      the handler makes. */
  method Handle(req: Request, env: Env, random: string, tokenReply: TokenReply, sendReply: SendReply)
    returns (resp: Response, calls: seq<Call>)
    // the preflight reply: empty, CORS headers, no other work
    ensures req.verb == "OPTIONS" ==> resp == Response(200, CorsHeaders, None) && calls == []
    // an unreadable body is a caught error
    ensures req.verb != "OPTIONS" && req.body.Err? ==> resp == Failure(req.body.error) && calls == []
    // missing credentials: 500 before any token request
    ensures req.verb != "OPTIONS" && req.body.Ok? && !Configured(env) ==>
      calls == [] && resp.status == 500 && resp.body.Some? && !resp.body.value.success
      && resp.body.value.message == "Gmail OAuth2 credentials not configured"
      && resp.body.value.error == Some(MissingCredentials)
    // with credentials the token is requested first, and only a usable token
    // leads to the send call
    ensures req.verb != "OPTIONS" && req.body.Ok? && Configured(env) ==>
      |calls| >= 1 && calls[0] == TokenCall(env.clientId.value, env.clientSecret.value, env.refreshToken.value)
      && (|calls| == 2 <==> Truthy(GetOAuth2AccessToken(tokenReply))) && |calls| <= 2
    ensures req.verb != "OPTIONS" && req.body.Ok? && Configured(env) && !Truthy(GetOAuth2AccessToken(tokenReply)) ==>
      resp == Failure("Failed to obtain OAuth2 access token")
    // the send call carries the encoded raw message, From defaulting to GMAIL_USER
    ensures |calls| == 2 ==>
      var e := req.body.value;
      calls[1] == SendCall(GetOAuth2AccessToken(tokenReply).value,
        Base64Url.EncodeBase64Url(RawMessage(Sender(e.from, env.gmailUser.value), e.to, e.subject, e.html, Boundary(random))))
    ensures |calls| == 2 && SendOutcome(sendReply).Err? ==> resp == Failure(SendOutcome(sendReply).error)
    ensures |calls| == 2 && SendOutcome(sendReply).Ok? ==>
      var e := req.body.value;
      resp == Response(200, JsonHeaders, Some(Body(true, "Email sent successfully", None, SendOutcome(sendReply).value,
        Some(Details(e.to, e.subject, Sender(e.from, env.gmailUser.value))))))
    // 200 only after a successful send
    ensures resp.status == 200 && resp.body.Some? ==> |calls| == 2 && SendOutcome(sendReply).Ok?
  {
    calls := [];
    if req.verb == "OPTIONS" {
      return Response(200, CorsHeaders, None), calls;
    }
    if req.body.Err? {
      return Failure(req.body.error), calls;
    }
    var e := req.body.value;
    if !Configured(env) {
      resp := Response(500, JsonHeaders,
        Some(Body(false, "Gmail OAuth2 credentials not configured", Some(MissingCredentials), None, None)));
      return;
    }
    var from := Sender(e.from, env.gmailUser.value);
    calls := calls + [TokenCall(env.clientId.value, env.clientSecret.value, env.refreshToken.value)];
    var accessToken := GetOAuth2AccessToken(tokenReply);
    if !Truthy(accessToken) {
      return Failure("Failed to obtain OAuth2 access token"), calls;
    }
    var raw := RawMessage(from, e.to, e.subject, e.html, Boundary(random));
    calls := calls + [SendCall(accessToken.value, Base64Url.EncodeBase64Url(raw))];
    var result := SendOutcome(sendReply);
    if result.Err? {
      return Failure(result.error), calls;
    }
    resp := Response(200, JsonHeaders,
      Some(Body(true, "Email sent successfully", None, result.value, Some(Details(e.to, e.subject, from)))));
  }

  /** What Gmail receives decodes back to the assembled message: the `raw`
      field is base64url over the UTF-8 bytes of the message. */
  lemma SentRawDecodes(from: string, to: string, subject: string, html: string, random: string)
    ensures var raw := RawMessage(from, to, subject, html, Boundary(random));
      var bytes := Base64Url.DecodeBase64Url(Base64Url.EncodeBase64Url(raw));
      bytes.Some? && Utf8.Decode(bytes.value) == Some(raw)
  {
    Base64Url.EncodeRoundTrip(RawMessage(from, to, subject, html, Boundary(random)));
  }
}
