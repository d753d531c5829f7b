/** The `/callback` route of `cmd/main.go`: the anti-forgery `state` check
    and the authorization-code exchange that follows it. The exchange
    request is recorded, its response is an input, and the package-level
    `accessToken` is an explicit session value passed in and out. */
module Callback {
  import opened Wrappers

  /** What the process fixed before serving: client id, redirect URI, the
      issued `state` and the PKCE verifier. */
  datatype AuthConfig = AuthConfig(clientId: string, redirectUri: string, state: string, codeVerifier: string)

  /** The `accessToken` variable. */
  datatype Session = Session(accessToken: string)

  /** The `state` and `code` query parameters of the redirect. */
  datatype Query = Query(state: string, code: string)

  /** The form posted to the token endpoint. */
  datatype TokenRequest = TokenRequest(
    clientId: string,
    grantType: string,
    redirectUri: string,
    code: string,
    codeVerifier: string)

  /** A token response body as `json.Decoder` sees it when the target is a
      `map[string]interface{}`. `NotJson` is any body that does not decode
      into a JSON object: malformed text, but also a well-formed array,
      number or string. `TokenJson` is a body that decodes: an object whose
      `access_token` is a string (`Some`) or is absent or of another type
      (`None`), and also `null`, which decodes to a nil map with no
      `access_token` (`None`). */
  datatype TokenBody = NotJson | TokenJson(accessToken: Option<string>)

  datatype TokenOutcome = TokenNetErr | TokenResponse(status: int, body: TokenBody)

  /** What the route answers: a JSON error, a redirect, or the panic of the
      unchecked `.(string)` assertion. */
  datatype Reply = ErrorJson(status: int, message: string) | Redirect(status: int, location: string) | Panic

  datatype Handled = Handled(reply: Reply, requests: seq<TokenRequest>, session: Session)

  /** The token the exchange yields, if it succeeds. */
  predicate GrantsToken(o: TokenOutcome)
  {
    o.TokenResponse? && o.status == 200 && o.body.TokenJson? && o.body.accessToken.Some?
  }

  /** One callback. `exchange` is what the token endpoint would answer; it
      is consulted only if the request is sent. */
  function HandleCallback(cfg: AuthConfig, session: Session, q: Query, exchange: TokenOutcome): (h: Handled)
    ensures q.state != cfg.state ==> h == Handled(ErrorJson(400, "State mismatch"), [], session)
    ensures q.state == cfg.state ==>
              h.requests == [TokenRequest(cfg.clientId, "authorization_code", cfg.redirectUri, q.code, cfg.codeVerifier)]
    ensures h.session != session ==> q.state == cfg.state && GrantsToken(exchange)
    ensures h.reply.Redirect? <==> q.state == cfg.state && GrantsToken(exchange)
    ensures h.reply.Redirect? ==>
              h.reply == Redirect(302, "/tweets") && h.session == Session(exchange.body.accessToken.value)
    ensures q.state == cfg.state && exchange.TokenResponse? && exchange.status != 200 ==>
              h.reply == ErrorJson(exchange.status, "Twitter API error") && h.session == session
    ensures q.state == cfg.state && (exchange.TokenNetErr? || (exchange.status == 200 && exchange.body.NotJson?)) ==>
              h.reply == ErrorJson(500, "Internal server error") && h.session == session
    ensures q.state == cfg.state && exchange == TokenResponse(200, TokenJson(None)) ==>
              h.reply == Panic && h.session == session
  {
    if q.state != cfg.state then
      Handled(ErrorJson(400, "State mismatch"), [], session)
    else
      var req := TokenRequest(cfg.clientId, "authorization_code", cfg.redirectUri, q.code, cfg.codeVerifier);
      match exchange
      case TokenNetErr => Handled(ErrorJson(500, "Internal server error"), [req], session)
      case TokenResponse(status, body) =>
        if status != 200 then Handled(ErrorJson(status, "Twitter API error"), [req], session)
        else match body
          case NotJson => Handled(ErrorJson(500, "Internal server error"), [req], session)
          case TokenJson(None) => Handled(Panic, [req], session)
          case TokenJson(Some(token)) => Handled(Redirect(302, "/tweets"), [req], Session(token))
  }

  /** A forged callback changes nothing and sends nothing, whatever the
      token endpoint would have answered. */
  lemma ForgedStateIgnored(cfg: AuthConfig, session: Session, q: Query, e1: TokenOutcome, e2: TokenOutcome)
    requires q.state != cfg.state
    ensures HandleCallback(cfg, session, q, e1) == HandleCallback(cfg, session, q, e2)
    ensures HandleCallback(cfg, session, q, e1).requests == []
  {
  }
}
