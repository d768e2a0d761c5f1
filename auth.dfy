/**
 * utils/auth.js: `signToken`, which issues a JWT for a user, and `authMiddleware`, which
 * reads `Authorization: Bearer <token>`, verifies the token and sets `req.user`.
 */
module Auth {
  import opened Wrappers
  import opened JsText
  import opened Faults
  import UserModel

  /** `expiresIn: "24d"`, in the seconds that `iat` and `exp` count. */
  const TokenLifetime := 24 * 86400

  const BearerPrefix := "Bearer "
  const MissingToken := "Missing or invalid token"
  const InvalidToken := "Invalid or expired token"

  /** The claim set `{ _id, email, username }`; `email` is absent for a GitHub account without one. */
  datatype Claims = Claims(id: UserModel.UserId, email: Option<string>, username: string)

  /** A token's payload: the claims plus the `iat` and `exp` that `jwt.sign` adds. */
  datatype Payload = Payload(claims: Claims, iat: int, exp: int)

  /** The signing layer of `jsonwebtoken`: serialise and sign a payload under a secret, and
      check a token's signature under a secret and decode it. */
  datatype JwtCodec = JwtCodec(encode: (Payload, string) -> string, decode: (string, string) -> Option<Payload>)

  /** What the service relies on from the signature scheme under a configured secret: a
      signed token decodes to its payload and is not empty, and a token that passes the
      signature check is one that was signed under that secret. */
  ghost predicate CodecSound(c: JwtCodec) {
    && (forall p, secret :: secret != [] ==>
          c.decode(c.encode(p, secret), secret) == Some(p) && c.encode(p, secret) != [])
    && (forall token, secret :: secret != [] && c.decode(token, secret).Some? ==>
          token == c.encode(c.decode(token, secret).value, secret))
  }

  /** `req.user` as the middleware sets it. */
  datatype Identity = Identity(id: UserModel.UserId, email: Option<string>, username: string)

  /** The claim-to-`req.user` mapping: `_id` becomes `id`. */
  function IdentityOf(c: Claims): Identity {
    Identity(c.id, c.email, c.username)
  }

  /** `jwt.sign(claims, secret, { expiresIn: "24d" })` at time `now`; it throws without a secret. */
  function SignToken(c: JwtCodec, secret: string, now: int, claims: Claims): (r: Result<string, Fault>)
    ensures secret == [] <==> r == Err(SecretMissing)
    ensures r.Ok? ==> r.value == c.encode(Payload(claims, now, now + TokenLifetime), secret)
  {
    if secret == [] then Err(SecretMissing)
    else Ok(c.encode(Payload(claims, now, now + TokenLifetime), secret))
  }

  /** `jwt.verify(token, secret)` at time `now`: it throws without a secret, on a bad
      signature, and once `now >= exp`. */
  function VerifyToken(c: JwtCodec, token: string, secret: string, now: int): (r: Option<Payload>)
    ensures r.Some? ==> secret != [] && c.decode(token, secret) == r && now < r.value.exp
    ensures secret != [] && c.decode(token, secret).Some? && now < c.decode(token, secret).value.exp ==>
      r == c.decode(token, secret)
  {
    if secret == [] then None
    else match c.decode(token, secret)
      case None => None
      case Some(p) => if now < p.exp then Some(p) else None
  }

  /** `header.startsWith("Bearer ") ? header.slice(7) : null`. */
  function BearerToken(header: string): (r: Option<string>)
    ensures r.Some? ==> header == BearerPrefix + r.value
    ensures forall token :: header == BearerPrefix + token ==> r == Some(token)
  {
    if StartsWith(header, BearerPrefix) then Some(header[|BearerPrefix|..]) else None
  }

  datatype AuthOutcome = Authenticated(user: Identity) | Rejected(message: string)

  /** The decision `authMiddleware` takes for a request whose `Authorization` header is `header`. */
  function Authenticate(header: Option<string>, c: JwtCodec, secret: string, now: int): (r: AuthOutcome)
    ensures r == Rejected(MissingToken) <==>
      (header.None? || !StartsWith(header.value, BearerPrefix) || header.value == BearerPrefix)
    ensures r.Rejected? ==> r.message == MissingToken || r.message == InvalidToken
    ensures forall token {:trigger VerifyToken(c, token, secret, now)} ::
      header == Some(BearerPrefix + token) && token != [] ==>
        match VerifyToken(c, token, secret, now)
        case None => r == Rejected(InvalidToken)
        case Some(p) => r == Authenticated(IdentityOf(p.claims))
  {
    var token := BearerToken(if header.Some? then header.value else "");
    if token.None? || token.value == [] then Rejected(MissingToken)
    else match VerifyToken(c, token.value, secret, now)
      case None => Rejected(InvalidToken)
      case Some(p) => Authenticated(IdentityOf(p.claims))
  }

  /** Round trip: a token from `signToken` under the same secret authenticates, until it
      expires, as the identity it was issued for. */
  lemma SignedTokenAuthenticates(c: JwtCodec, secret: string, issuedAt: int, now: int, claims: Claims)
    requires CodecSound(c) && secret != []
    requires now < issuedAt + TokenLifetime
    ensures SignToken(c, secret, issuedAt, claims).Ok?
    ensures Authenticate(Some(BearerPrefix + SignToken(c, secret, issuedAt, claims).value), c, secret, now)
            == Authenticated(Identity(claims.id, claims.email, claims.username))
  {
    var p := Payload(claims, issuedAt, issuedAt + TokenLifetime);
    var token := c.encode(p, secret);
    assert c.decode(token, secret) == Some(p) && token != [];
    assert VerifyToken(c, token, secret, now) == Some(p);
  }

  /** The same token is refused from the moment it expires. */
  lemma ExpiredTokenRejected(c: JwtCodec, secret: string, issuedAt: int, now: int, claims: Claims)
    requires CodecSound(c) && secret != []
    requires issuedAt + TokenLifetime <= now
    ensures Authenticate(Some(BearerPrefix + SignToken(c, secret, issuedAt, claims).value), c, secret, now)
            == Rejected(InvalidToken)
  {
    var p := Payload(claims, issuedAt, issuedAt + TokenLifetime);
    var token := c.encode(p, secret);
    assert c.decode(token, secret) == Some(p) && token != [];
    assert VerifyToken(c, token, secret, now) == None;
  }

  /** Every identity the middleware accepts comes from a token signed under the server's
      secret whose expiry lies ahead. */
  lemma AuthenticatedOnlyBySignedToken(header: Option<string>, c: JwtCodec, secret: string, now: int)
    requires CodecSound(c)
    requires Authenticate(header, c, secret, now).Authenticated?
    ensures exists p ::
      (header == Some(BearerPrefix + c.encode(p, secret)) && now < p.exp
       && Authenticate(header, c, secret, now).user == IdentityOf(p.claims))
  {
    var token := BearerToken(header.value).value;
    var p := VerifyToken(c, token, secret, now).value;
    assert token == c.encode(p, secret);
  }

  /** The request and response objects as `authMiddleware` sees them. */
  class Exchange {
    const authorization: Option<string>  // req.headers.authorization
    var user: Option<Identity>           // req.user
    var status: Option<int>              // the status sent, once a response is sent
    var error: Option<string>            // the `error` of the JSON body sent
    var nextCalls: nat                   // how many times `next()` was called

    constructor (authorization: Option<string>)
      ensures this.authorization == authorization
      ensures user == None && status == None && error == None && nextCalls == 0
    {
      this.authorization := authorization;
      user, status, error, nextCalls := None, None, None, 0;
    }
  }

  /** `authMiddleware(req, res, next)`: either sets `req.user` and calls `next` once, or sends
      401 with the reason and leaves `req.user` alone. */
  method AuthMiddleware(ex: Exchange, c: JwtCodec, secret: string, now: int)
    modifies ex
    ensures match Authenticate(ex.authorization, c, secret, now)
      case Authenticated(id) =>
        ex.user == Some(id) && ex.nextCalls == old(ex.nextCalls) + 1
        && ex.status == old(ex.status) && ex.error == old(ex.error)
      case Rejected(message) =>
        ex.user == old(ex.user) && ex.nextCalls == old(ex.nextCalls)
        && ex.status == Some(401) && ex.error == Some(message)
  {
    var header := if ex.authorization.Some? then ex.authorization.value else "";
    var token := BearerToken(header);
    if token.None? || token.value == [] {
      ex.status, ex.error := Some(401), Some(MissingToken);
      return;
    }
    var payload := VerifyToken(c, token.value, secret, now);
    if payload.None? {
      ex.status, ex.error := Some(401), Some(InvalidToken);
      return;
    }
    ex.user := Some(IdentityOf(payload.value.claims));
    ex.nextCalls := ex.nextCalls + 1;
  }
}
