/**
 * The request gate of `PhotoServer.serve`: the first-visit handshake that
 * turns `/?t=<pin>` into a `pin` cookie, and `checkAuth`, which accepts a
 * matching `pin` cookie or a matching `t` query parameter.
 */
module Auth {
  import opened Wrappers
  import opened Text
  import opened Http

  const COOKIE_MAX_AGE: nat := 86400

  /** One trimmed cookie piece grants access when it starts with `pin=` and the rest is the token. */
  predicate PinPartMatches(part: string, token: string) {
    StartsWith(part, "pin=") && SubstringAfter(part, "pin=") == token
  }

  /** `session.headers["cookie"] ?: ""`. */
  function CookieHeader(req: Request): string {
    req.Header("cookie").GetOr("")
  }

  /** Some `;`-separated, trimmed piece of the cookie header carries the token. */
  predicate CookieGrants(cookie: string, token: string) {
    var parts := Split(cookie, ';');
    exists k :: 0 <= k < |parts| && PinPartMatches(Trim(parts[k]), token)
  }

  /** `checkAuth`: no token means open access; otherwise a matching cookie or `t` parameter. */
  predicate CheckAuth(token: Option<string>, req: Request) {
    match token
    case None => true
    case Some(t) => CookieGrants(CookieHeader(req), t) || req.FirstParam("t") == Some(t)
  }

  /** The trimmed `;`-separated pieces of a cookie header. */
  function CookiePieces(cookie: string): (r: seq<string>)
    ensures |r| == |Split(cookie, ';')|
  {
    var parts := Split(cookie, ';');
    seq(|parts|, i requires 0 <= i < |parts| => Trim(parts[i]))
  }

  /** The prefix test plus `substringAfter` is the same as comparing the piece with `pin=<token>`. */
  lemma PinPartIsEquality(part: string, token: string)
    ensures PinPartMatches(part, token) <==> part == "pin=" + token
  {
    if StartsWith(part, "pin=") {
      assert FindSub(part, "pin=") == Some(0);
      assert part == "pin=" + part[4..];
    }
    if part == "pin=" + token {
      assert part[..4] == "pin=";
      assert FindSub(part, "pin=") == Some(0);
      assert part[4..] == token;
    }
  }

  /**
   * With a token configured, `checkAuth` grants exactly when some trimmed cookie
   * piece is literally `pin=<token>` or the first `t` parameter is the token.
   */
  lemma CheckAuthExactly(t: string, req: Request)
    ensures CheckAuth(Some(t), req) <==> ("pin=" + t in CookiePieces(CookieHeader(req)) || req.FirstParam("t") == Some(t))
  {
    var cookie := CookieHeader(req);
    var parts := Split(cookie, ';');
    var pieces := CookiePieces(cookie);
    if CookieGrants(cookie, t) {
      var k :| 0 <= k < |parts| && PinPartMatches(Trim(parts[k]), t);
      PinPartIsEquality(Trim(parts[k]), t);
      assert pieces[k] == "pin=" + t;
    }
    if "pin=" + t in pieces {
      var k :| 0 <= k < |pieces| && pieces[k] == "pin=" + t;
      PinPartIsEquality(Trim(parts[k]), t);
      assert PinPartMatches(Trim(parts[k]), t);
    }
  }

  /** The handshake fires on `/` whose first `t` value equals a configured token. */
  predicate IsHandshake(token: Option<string>, req: Request) {
    req.uri == "/" && req.FirstParam("t").Some? && token.Some? && req.FirstParam("t").value == token.value
  }

  function SetCookieValue(t: string): string {
    "pin=" + t + "; Path=/; Max-Age=" + NatToString(COOKIE_MAX_AGE)
  }

  /** The redirect that stores the cookie and sends the browser to the token-free root. */
  function HandshakeRedirect(t: string): Response {
    Response(REDIRECT, PLAIN, [("Set-Cookie", SetCookieValue(t)), ("Location", "/")], Text("redirect"))
  }

  datatype Verdict = Redirect(response: Response) | Denied | Granted

  /** The start of `serve`: the handshake first, whatever the cookie; then `checkAuth`. */
  function Gate(token: Option<string>, req: Request): Verdict {
    if IsHandshake(token, req) then Redirect(HandshakeRedirect(token.value))
    else if CheckAuth(token, req) then Granted
    else Denied
  }

  /** Without a token nothing is ever refused or redirected. */
  lemma OpenWithoutToken(req: Request)
    ensures Gate(None, req) == Granted
  {
  }

  /** The handshake redirect depends only on the path and the `t` parameter, never on the cookie. */
  lemma HandshakeIgnoresCookie(t: string, req: Request, cookie: string)
    requires req.uri == "/" && req.FirstParam("t") == Some(t)
    ensures Gate(Some(t), req) == Redirect(HandshakeRedirect(t))
    ensures Gate(Some(t), req.(headers := req.headers["cookie" := cookie])) == Redirect(HandshakeRedirect(t))
  {
  }

  /**
   * A request with no cookie and without the right `t` is refused, on any path,
   * and in particular `/?t=<wrong pin>` falls through to a refusal.
   */
  lemma MissingCredentialsDenied(t: string, req: Request)
    requires req.Header("cookie") == None
    requires req.FirstParam("t") != Some(t)
    ensures Gate(Some(t), req) == Denied
  {
    assert Split("", ';') == [""];
  }

  /** The name=value pair a browser keeps from a `Set-Cookie` value: the text before its first `;`. */
  function CookiePair(setCookie: string): string {
    Split(setCookie, ';')[0]
  }

  /** The cookie set by the handshake is `pin=<token>`. */
  lemma HandshakeCookiePair(t: string)
    requires ';' !in t
    ensures CookiePair(SetCookieValue(t)) == "pin=" + t
  {
    var parts := ["pin=" + t, " Path=/", " Max-Age=" + NatToString(COOKIE_MAX_AGE)];
    assert ';' !in parts[2];
    assert parts[1..][1..] == [parts[2]];
    assert Join(parts[1..], ';') == parts[1] + [';'] + parts[2];
    assert Join(parts, ';') == SetCookieValue(t);
    SplitJoin(parts, ';');
  }

  /**
   * After the handshake, any later request whose cookie header holds the stored
   * pair (`pin=<token>`, by `HandshakeCookiePair`) among its `;`-separated
   * pieces is granted, whatever its path or query.
   */
  lemma HandshakeCookieGrants(t: string, pieces: seq<string>, k: nat, req: Request)
    requires k < |pieces| && forall i :: 0 <= i < |pieces| ==> ';' !in pieces[i]
    requires Trim(pieces[k]) == "pin=" + t
    requires req.Header("cookie") == Some(Join(pieces, ';'))
    ensures Gate(Some(t), req) != Denied
  {
    SplitJoin(pieces, ';');
    PinPartIsEquality(Trim(pieces[k]), t);
    assert PinPartMatches(Trim(Split(Join(pieces, ';'), ';')[k]), t);
    assert CheckAuth(Some(t), req);
  }
}
