/** Session tokens. `JwtService.sign` issues a token over `{ sub, email }`;
    the passport strategy accepts a bearer token only when its signature
    matches the configured secret and it has not expired
    (`ignoreExpiration: false`), then `validate` resolves `payload.sub` to the
    live profile. The HMAC is symbolic: a signature records the key and the
    exact claims and times it was computed over. */
module Session {
  import opened Outcomes
  import opened Entities

  /** The signed payload `{ sub: user.id, email: user.email }`. */
  datatype Claims = Claims(sub: string, email: string)

  datatype Signature = Signature(key: string, claims: Claims, issuedAt: nat, expiresAt: nat)

  /** A JWT: claims, `iat` and `exp` in seconds, and the signature. */
  datatype Token = Token(claims: Claims, issuedAt: nat, expiresAt: nat, signature: Signature)

  /** The `JwtService` as registered: secret and `expiresIn` in seconds. */
  datatype Signer = Signer(secret: string, expiresInSec: nat)

  /** The strategy's `secretOrKey` and `ignoreExpiration` options. */
  datatype Strategy = Strategy(secret: string, ignoreExpiration: bool)

  /** The principal `validate` attaches to the request. */
  datatype Principal = Principal(id: string, email: string, username: string)

  /** JWT times are whole seconds: `Math.floor(Date.now() / 1000)`. */
  function Seconds(nowMs: nat): nat {
    nowMs / 1000
  }

  /** `jwtService.sign(payload)` at time `nowMs`. */
  function Issue(signer: Signer, claims: Claims, nowMs: nat): (t: Token)
    ensures t.claims == claims
    ensures t.expiresAt - t.issuedAt == signer.expiresInSec
  {
    var iat := Seconds(nowMs);
    var exp := iat + signer.expiresInSec;
    Token(claims, iat, exp, Signature(signer.secret, claims, iat, exp))
  }

  /** The strategy's constructor: it throws, and the process cannot start,
      when `JWT_SECRET` is unset or empty. */
  function NewStrategy(jwtSecret: Option<string>): (r: Option<Strategy>)
    ensures r.Some? <==> Truthy(jwtSecret)
    ensures r.Some? ==> r.value.secret == jwtSecret.value && !r.value.ignoreExpiration
  {
    if Truthy(jwtSecret) then Some(Strategy(jwtSecret.value, false)) else None
  }

  /** The signature a token would carry if `secret` had signed its contents. */
  function ExpectedSignature(secret: string, t: Token): Signature {
    Signature(secret, t.claims, t.issuedAt, t.expiresAt)
  }

  /** The library check before `validate`: a signature by the configured
      secret over exactly these contents, and, unless expiration is ignored,
      a current time strictly before `exp`. */
  function Verify(strategy: Strategy, t: Token, nowMs: nat): (r: Result<Claims>)
    ensures r.Ok? ==> r.value == t.claims && t.signature.key == strategy.secret
    ensures r.Ok? && !strategy.ignoreExpiration ==> Seconds(nowMs) < t.expiresAt
    ensures t.signature != ExpectedSignature(strategy.secret, t) ==> r == Err(Error(Unauthorized, InvalidToken))
    ensures r.Err? ==> r.error == Error(Unauthorized, InvalidToken)
  {
    if t.signature != ExpectedSignature(strategy.secret, t) then Err(Error(Unauthorized, InvalidToken))
    else if !strategy.ignoreExpiration && Seconds(nowMs) >= t.expiresAt then Err(Error(Unauthorized, InvalidToken))
    else Ok(t.claims)
  }

  /** `validate(payload)` as the code behaves: `getUserProfile` throws
      `NotFoundException` for a missing row, so the `UnauthorizedException`
      branch after it is never reached and a missing profile surfaces as 404. */
  function ValidateAsWritten(users: map<string, User>, claims: Claims): (r: Result<Principal>)
    ensures r.Ok? <==> claims.sub in users
    ensures r.Ok? ==> var u := users[claims.sub];
                      r.value == Principal(u.id, u.email, u.username)
    ensures r.Err? ==> r.error == Error(NotFound, UserNotFound)
  {
    if claims.sub in users then
      var u := users[claims.sub];
      Ok(Principal(u.id, u.email, u.username))
    else Err(Error(NotFound, UserNotFound))
  }

  /** `validate(payload)` as intended: the profile is looked up by `sub`, a
      missing one is rejected as an invalid token, and the principal is the
      live `{ id, email, username }` of the stored row. */
  function Validate(users: map<string, User>, claims: Claims): (r: Result<Principal>)
    ensures r.Ok? <==> claims.sub in users
    ensures r.Ok? ==> var u := users[claims.sub];
                      r.value == Principal(u.id, u.email, u.username)
    ensures r.Err? ==> r.error == Error(Unauthorized, InvalidToken)
  {
    if claims.sub in users then
      var u := users[claims.sub];
      Ok(Principal(u.id, u.email, u.username))
    else Err(Error(Unauthorized, InvalidToken))
  }

  /** A guarded request: verify the bearer token, then resolve its subject
      with the corrected `Validate`. It succeeds exactly for a verified
      token whose subject still has a row, and the principal is that row's
      current id, e-mail and username. */
  function Authenticate(users: map<string, User>, strategy: Strategy, t: Token, nowMs: nat): (r: Result<Principal>)
    ensures r.Ok? <==> Verify(strategy, t, nowMs).Ok? && t.claims.sub in users
    ensures r.Ok? ==> var u := users[t.claims.sub];
                      r.value == Principal(u.id, u.email, u.username)
    ensures r.Err? ==> r.error == Error(Unauthorized, InvalidToken)
  {
    match Verify(strategy, t, nowMs)
    case Err(e) => Err(e)
    case Ok(claims) => Validate(users, claims)
  }

  /** A guarded request as the code behaves: a token that fails the library
      check is 401, but a verified token whose subject has no row is 404. */
  function AuthenticateAsWritten(users: map<string, User>, strategy: Strategy, t: Token, nowMs: nat): (r: Result<Principal>)
    ensures r.Ok? <==> Verify(strategy, t, nowMs).Ok? && t.claims.sub in users
    ensures Verify(strategy, t, nowMs).Err? ==> r == Err(Error(Unauthorized, InvalidToken))
    ensures Verify(strategy, t, nowMs).Ok? && t.claims.sub !in users ==> r == Err(Error(NotFound, UserNotFound))
    ensures r.Ok? ==> r == Authenticate(users, strategy, t, nowMs)
  {
    match Verify(strategy, t, nowMs)
    case Err(e) => Err(e)
    case Ok(claims) => ValidateAsWritten(users, claims)
  }

  /** A token issued with the strategy's secret is accepted, with the claims
      it was issued over, exactly until its expiry second. */
  lemma IssuedTokenVerifies(signer: Signer, jwtSecret: Option<string>, claims: Claims, issuedMs: nat, nowMs: nat)
    requires NewStrategy(jwtSecret).Some? && signer.secret == jwtSecret.value
    ensures var t := Issue(signer, claims, issuedMs);
            Verify(NewStrategy(jwtSecret).value, t, nowMs).Ok?
            <==> Seconds(nowMs) < Seconds(issuedMs) + signer.expiresInSec
    ensures var t := Issue(signer, claims, issuedMs);
            Verify(NewStrategy(jwtSecret).value, t, nowMs).Ok? ==>
            Verify(NewStrategy(jwtSecret).value, t, nowMs).value == claims
  {
  }

  /** A token whose claims were altered after signing is rejected. */
  lemma TamperedTokenRejected(strategy: Strategy, signer: Signer, claims: Claims, forged: Claims, issuedMs: nat, nowMs: nat)
    requires forged != claims
    ensures var t := Issue(signer, claims, issuedMs);
            Verify(strategy, t.(claims := forged), nowMs) == Err(Error(Unauthorized, InvalidToken))
  {
  }

  /** A token signed under another secret is rejected. */
  lemma ForeignSecretRejected(strategy: Strategy, signer: Signer, claims: Claims, issuedMs: nat, nowMs: nat)
    requires signer.secret != strategy.secret
    ensures Verify(strategy, Issue(signer, claims, issuedMs), nowMs).Err?
  {
  }

  /** The principal comes from the row of `sub`, not from the email claim:
      a changed email or username shows up without reissuing the token. */
  lemma PrincipalIsLive(users: map<string, User>, claims: Claims)
    requires claims.sub in users && users[claims.sub].email != claims.email
    ensures Validate(users, claims).Ok?
    ensures Validate(users, claims).value.email == users[claims.sub].email
    ensures Validate(users, claims).value.email != claims.email
  {
  }

  /** As written, a token whose subject has no profile yields 404, not the
      401 the strategy's own check would give. */
  lemma MissingProfileIsNotFound(claims: Claims)
    ensures ValidateAsWritten(map[], claims) == Err(Error(NotFound, UserNotFound))
    ensures Validate(map[], claims) == Err(Error(Unauthorized, InvalidToken))
  {
  }
}
