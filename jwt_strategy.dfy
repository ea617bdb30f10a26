/**
 * The access-token guard of every protected route: passport-jwt verifies the
 * bearer token with the server secret and its expiry, then `validate` accepts
 * the decoded payload only for an access token whose subject is a live,
 * active account.
 */
module JwtStrategy {
  import opened Wrappers
  import opened Jwt
  import opened AccountSchema
  import opened Accounts

  /** The message of an `UnauthorizedException` thrown without one. */
  const DefaultUnauthorized := "Unauthorized"

  /** `validate(payload)`: refuse any kind but `access` before looking the
      subject up; then refuse a missing, deleted or inactive account; else
      hand on the account's public view. */
  function Validate(payload: Payload, accounts: seq<Account>): (r: Result<PublicAccount, Error>)
    ensures r.Success? <==>
      payload.kind == Access && FindById(accounts, payload.sub).Some? && accounts[payload.sub].isActive
    ensures r.Success? ==> r.value == Public(payload.sub, accounts[payload.sub])
    ensures r.Failure? ==> r.error.Unauthorized?
  {
    if payload.kind != Access then Failure(Unauthorized(InvalidTokenType))
    else
      match FindByIdPublic(accounts, payload.sub)
      case None => Failure(Unauthorized(DefaultUnauthorized))
      case Some(account) =>
        if !account.isActive then Failure(Unauthorized(DefaultUnauthorized)) else Success(account)
  }

  /** A protected request: the strategy's token check (signature and expiry),
      then `validate` on the decoded payload. */
  function Authenticate(t: Token, nowMs: int, accounts: seq<Account>): (r: Result<PublicAccount, Error>)
    ensures r.Success? ==> Verify(t, nowMs).Some?
    ensures Verify(t, nowMs).Some? ==> r == Validate(t.claims.payload, accounts)
    ensures Verify(t, nowMs).None? ==> r == Failure(Unauthorized(DefaultUnauthorized))
  {
    match Verify(t, nowMs)
    case None => Failure(Unauthorized(DefaultUnauthorized))
    case Some(c) => Validate(c.payload, accounts)
  }

  /** A payload of any other kind is refused with the same error whatever
      the collection holds: the lookup is never consulted. */
  lemma ValidateRefusesOtherKindsBeforeLookup(payload: Payload, accounts1: seq<Account>, accounts2: seq<Account>)
    requires payload.kind != Access
    ensures Validate(payload, accounts1) == Validate(payload, accounts2) == Failure(Unauthorized(InvalidTokenType))
  {
  }

  /** Kind separation: a token the guard accepts is refused by `refresh`,
      and a token `refresh` accepts is refused by the guard, whatever the
      collection and the clock at either moment. */
  lemma KindSeparation(t: Token, nowMs: int, laterMs: int, accounts1: seq<Account>, accounts2: seq<Account>)
    ensures Authenticate(t, nowMs, accounts1).Success? ==> RefreshGuard(accounts2, t, laterMs).Failure?
    ensures RefreshGuard(accounts1, t, nowMs).Success? ==> Authenticate(t, laterMs, accounts2).Failure?
  {
    if Authenticate(t, nowMs, accounts1).Success? {
      assert t.claims.payload.kind == Access;
    }
    if RefreshGuard(accounts1, t, nowMs).Success? {
      assert t.claims.payload.kind == Refresh;
    }
  }

  /** Switching an account off through `update` makes its already issued
      access tokens fail the guard on the next request. */
  lemma DisablingRevokesAccess(accounts: seq<Account>, id: Id, nowMs: int, t: Token, laterMs: int)
    requires FindById(accounts, id).Some?
    requires t.Signed? && t.claims.payload.sub == id
    ensures Authenticate(t, laterMs, accounts[id := Updated(accounts[id], None, Some(false), nowMs)]).Failure?
  {
  }

  /** A soft-deleted account's access tokens fail the guard. */
  lemma RemovalRevokesAccess(accounts: seq<Account>, id: Id, nowMs: int, t: Token, laterMs: int)
    requires FindById(accounts, id).Some?
    requires t.Signed? && t.claims.payload.sub == id
    ensures Authenticate(t, laterMs, SoftDeleted(accounts, id, nowMs)).Failure?
  {
  }

  /** A freshly issued access token passes the guard, within its lifetime,
      for as long as its account stays live and active. */
  lemma IssuedAccessTokenIsAccepted(accounts: seq<Account>, config: TokenConfig, id: Id, nowMs: int, laterMs: int)
    requires FindById(accounts, id).Some? && accounts[id].isActive
    requires NumericDate(laterMs) < NumericDate(nowMs) + config.accessTtl
    ensures Authenticate(IssuedPair(config, id, accounts[id].email, nowMs).accessToken, laterMs, accounts)
      == Success(Public(id, accounts[id]))
  {
  }
}
