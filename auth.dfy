/** The `auth` middleware put in front of every call-log route: a request
    passes with a static API key, or else with a bearer token that the JWT
    library accepts; every other request is refused with 403. */
module Auth {
  import opened Common

  /** The decoded JWT payload; its shape is the token issuer's business. */
  type Payload = string

  /** The two headers the middleware reads: `x-api-key` and `authorization`. */
  datatype Headers = Headers(apiKey: Option<string>, authorization: Option<string>)

  /** The process environment: `REACT_APP_API_KEY` and `JWT_SECRET`. */
  datatype Env = Env(apiKey: Option<string>, jwtSecret: Option<string>)

  /** What `req.user` is set to: the web client, or a token's payload. */
  datatype User = WebClient | TokenHolder(payload: Payload)

  /** Either `next()` with the user the request carries from then on, or an
      HTTP error response that ends the request. */
  datatype Decision = Next(user: User) | Deny(status: int, message: string)

  /** `jwt.verify(token, secret)`: the decoded payload, or None on error. The
      library is not modelled, so every route takes it as a parameter. */
  type Verifier = (string, Option<string>) -> Option<Payload>

  /** `apiKey && apiKey === validApiKey`. */
  predicate ApiKeyAccepted(h: Headers, env: Env) {
    Truthy(h.apiKey) && env.apiKey == Some(h.apiKey.value)
  }

  /** `req.headers.authorization?.split(" ")[1]`, kept only when truthy. */
  function BearerToken(authorization: Option<string>): (token: Option<string>)
    ensures token.Some? ==> token.value != "" && ' ' !in token.value
    ensures authorization.None? ==> token.None?
    ensures authorization.Some? && ' ' !in authorization.value ==> token.None?
    ensures authorization.Some? ==>
              (token.Some? <==> |Split(authorization.value, ' ')| > 1 && Split(authorization.value, ' ')[1] != "")
    ensures token.Some? ==> authorization.Some? && token.value == Split(authorization.value, ' ')[1]
  {
    match authorization
    case None => None
    case Some(h) =>
      var pieces := Split(h, ' ');
      if |pieces| > 1 && pieces[1] != "" then Some(pieces[1]) else None
  }

  /** The middleware's decision for one request. */
  function Decide(h: Headers, env: Env, verify: Verifier): (d: Decision)
    ensures ApiKeyAccepted(h, env) ==> d == Next(WebClient)
    ensures d == Next(WebClient) ==> ApiKeyAccepted(h, env)
    ensures d.Next? <==> ApiKeyAccepted(h, env)
                         || (BearerToken(h.authorization).Some?
                             && verify(BearerToken(h.authorization).value, env.jwtSecret).Some?)
    ensures d.Next? && d.user.TokenHolder? ==>
              BearerToken(h.authorization).Some?
              && verify(BearerToken(h.authorization).value, env.jwtSecret) == Some(d.user.payload)
    ensures d.Deny? ==> d.status == 403
    ensures d.Deny? ==> (d.message == "Unauthorized" <==> BearerToken(h.authorization).None?)
    ensures d.Deny? && BearerToken(h.authorization).Some? ==> d.message == "Invalid token"
  {
    if ApiKeyAccepted(h, env) then Next(WebClient)
    else
      match BearerToken(h.authorization)
      case None => Deny(403, "Unauthorized")
      case Some(token) =>
        match verify(token, env.jwtSecret)
        case None => Deny(403, "Invalid token")
        case Some(decoded) => Next(TokenHolder(decoded))
  }

  /** With a matching API key the token is never looked at. */
  lemma ApiKeyIgnoresToken(h: Headers, env: Env, verify: Verifier, authorization: Option<string>)
    requires ApiKeyAccepted(h, env)
    ensures Decide(h.(authorization := authorization), env, verify) == Decide(h, env, verify) == Next(WebClient)
  {
  }

  /** When the API key is not configured, no request is let in as the web
      client, whatever its `x-api-key` header says. */
  lemma UnsetKeyAdmitsNoWebClient(h: Headers, env: Env, verify: Verifier)
    requires env.apiKey.None?
    ensures Decide(h, env, verify) != Next(WebClient)
  {
  }

  /** An `authorization` header of the form "Bearer <token>" yields that token. */
  lemma {:induction false} BearerHeaderYieldsToken(scheme: string, token: string)
    requires ' ' !in scheme && ' ' !in token && token != ""
    ensures BearerToken(Some(scheme + " " + token)) == Some(token)
  {
    SplitAfterPiece(scheme, ' ', token);
    assert scheme + " " + token == scheme + [' '] + token;
  }

  /** Pieces after the second are ignored: "Bearer tok extra" yields "tok". */
  lemma {:induction false} ExtraPiecesIgnored(scheme: string, token: string, rest: string)
    requires ' ' !in scheme && ' ' !in token && token != ""
    ensures BearerToken(Some(scheme + " " + token + " " + rest)) == Some(token)
  {
    SplitAfterPiece(scheme, ' ', token + " " + rest);
    SplitAfterPiece(token, ' ', rest);
    assert scheme + " " + token + " " + rest == scheme + [' '] + (token + " " + rest);
    assert token + " " + rest == token + [' '] + rest;
  }

  /** Two spaces after the scheme leave an empty second piece: no token. */
  lemma {:induction false} DoubleSpaceYieldsNoToken(scheme: string, rest: string)
    requires ' ' !in scheme
    ensures BearerToken(Some(scheme + "  " + rest)) == None
  {
    SplitAfterPiece(scheme, ' ', " " + rest);
    SplitAfterPiece("", ' ', rest);
    assert scheme + "  " + rest == scheme + [' '] + (" " + rest);
    assert "" + [' '] + rest == " " + rest;
  }

  /** Without an accepted API key and without a token, the request is refused
      as unauthorized; a header without a space carries no token. */
  lemma NoTokenIsUnauthorized(h: Headers, env: Env, verify: Verifier)
    requires !ApiKeyAccepted(h, env)
    requires h.authorization.None? || ' ' !in h.authorization.value
    ensures Decide(h, env, verify) == Deny(403, "Unauthorized")
  {
  }

  /** The request being handled; the middleware writes `req.user`. */
  class Request {
    const headers: Headers
    var user: Option<User>

    constructor (headers: Headers)
      ensures this.headers == headers && user == None
    {
      this.headers := headers;
      user := None;
    }
  }

  /** Runs the middleware on `req`: on success `req.user` is set before the
      route proceeds; on failure nothing is written. */
  method Authenticate(req: Request, env: Env, verify: Verifier) returns (d: Decision)
    modifies req
    ensures d == Decide(req.headers, env, verify)
    ensures d.Next? ==> req.user == Some(d.user)
    ensures d.Deny? ==> req.user == old(req.user)
  {
    var apiKey := req.headers.apiKey;
    var token := BearerToken(req.headers.authorization);
    var validApiKey := env.apiKey;
    if Truthy(apiKey) && validApiKey == Some(apiKey.value) {
      req.user := Some(WebClient);
      return Next(WebClient);
    }
    if token.Some? {
      var decoded := verify(token.value, env.jwtSecret);
      if decoded.None? {
        return Deny(403, "Invalid token");
      }
      req.user := Some(TokenHolder(decoded.value));
      return Next(TokenHolder(decoded.value));
    } else {
      return Deny(403, "Unauthorized");
    }
  }
}
