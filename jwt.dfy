/**
 * The token codec (`JwtService.sign` / `JwtService.verify`, HS256 with the
 * server's JWT_SECRET). Signature cryptography is not modelled: a token
 * carries a valid signature exactly when it was built by `Sign`.
 */
module Jwt {
  import opened Wrappers

  /** The `type` claim of the payload. */
  datatype Kind = Access | Refresh

  /** The payload the service signs: `{ sub, email, type }`. `sub` is the
      account id (`String(doc._id)`). */
  datatype Payload = Payload(sub: nat, email: string, kind: Kind)

  /** A decoded token: the payload plus the `iat` and `exp` claims that the
      library adds, both in whole seconds. */
  datatype Claims = Claims(payload: Payload, iat: int, exp: int)

  /** A presented token: one signed with the server secret, one whose
      signature does not match its claims, or text that is not a token. */
  datatype Token = Signed(claims: Claims) | Tampered(claims: Claims) | Malformed(text: string)

  /** A JWT NumericDate: the clock (milliseconds) in whole seconds, rounded down. */
  function NumericDate(nowMs: int): int {
    nowMs / 1000
  }

  /** `sign(payload, { expiresIn: ttl })` at time `nowMs`; `ttl` is in seconds. */
  function Sign(p: Payload, nowMs: int, ttl: int): (t: Token)
    ensures t.Signed?
    ensures t.claims.payload == p
    ensures t.claims.iat == NumericDate(nowMs) && t.claims.exp == t.claims.iat + ttl
  {
    var iat := NumericDate(nowMs);
    Signed(Claims(p, iat, iat + ttl))
  }

  /** `verify(token)` at time `nowMs`: the claims of a correctly signed token
      whose `exp` lies strictly after the current second; every other defect
      (bad signature, malformed text, expiry) is one and the same failure. */
  function Verify(t: Token, nowMs: int): (r: Option<Claims>)
    ensures r.Some? <==> t.Signed? && NumericDate(nowMs) < t.claims.exp
    ensures r.Some? ==> r.value == t.claims
  {
    match t
    case Signed(c) => if NumericDate(nowMs) < c.exp then Some(c) else None
    case Tampered(_) => None
    case Malformed(_) => None
  }

  /** Round trip: a token verified in the millisecond it was signed, with a
      positive lifetime, decodes to the payload it was signed with; and it
      stops verifying once `ttl` whole seconds have passed. */
  lemma SignThenVerify(p: Payload, nowMs: int, ttl: int, laterMs: int)
    requires ttl > 0
    ensures Verify(Sign(p, nowMs, ttl), nowMs).Some?
    ensures Verify(Sign(p, nowMs, ttl), nowMs).value.payload == p
    ensures laterMs >= nowMs + 1000 * ttl ==> Verify(Sign(p, nowMs, ttl), laterMs).None?
  {
  }
}
