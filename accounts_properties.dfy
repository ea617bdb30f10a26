/**
 * What the account service promises across calls: how login and refresh
 * decide, what rotation does to earlier refresh tokens, what a soft delete
 * hides, and how the pages of the listing cover it.
 */
module AccountsProperties {
  import opened Wrappers
  import opened Bcrypt
  import opened Jwt
  import opened AccountSchema
  import opened Accounts

  // ---------------------------------------------------------------------------
  // login

  /** With no live account under the lower-cased address, login fails with
      "Invalid credentials". */
  lemma LoginWithoutAccount(accounts: seq<Account>, email: string, password: string)
    requires forall i :: 0 <= i < |accounts| && IsLive(accounts[i]) ==> accounts[i].email != ToLower(email)
    ensures LoginGuard(accounts, email, password) == Failure(Unauthorized(InvalidCredentials))
  {
  }

  /** With live account `i` under the lower-cased address, a wrong password
      gives the very error a missing account gives; "Account disabled" is
      reported only once the password has matched; otherwise `i` logs in. */
  lemma LoginWithAccount(accounts: seq<Account>, email: string, password: string, i: Id)
    requires StoreInvariant(accounts)
    requires i < |accounts| && IsLive(accounts[i]) && accounts[i].email == ToLower(email)
    ensures !Compare(password, accounts[i].password) ==>
      LoginGuard(accounts, email, password) == Failure(Unauthorized(InvalidCredentials))
    ensures Compare(password, accounts[i].password) && !accounts[i].isActive ==>
      LoginGuard(accounts, email, password) == Failure(Unauthorized(AccountDisabled))
    ensures Compare(password, accounts[i].password) && accounts[i].isActive ==>
      LoginGuard(accounts, email, password) == Success(i)
  {
    var found := FindLiveByEmail(accounts, ToLower(email));
    assert found.Some?;
    if found.value != i {
      UniqueIndexGivesOneLivePerEmail(accounts, found.value, i);
    }
  }

  /** Login depends on the address only through its lower-cased form. */
  lemma LoginIgnoresCase(accounts: seq<Account>, email1: string, email2: string, password: string)
    requires ToLower(email1) == ToLower(email2)
    ensures LoginGuard(accounts, email1, password) == LoginGuard(accounts, email2, password)
  {
  }

  // ---------------------------------------------------------------------------
  // refresh

  /** The reasons `refresh` gives, in the order it checks them. */
  lemma RefreshRejectionOrder(accounts: seq<Account>, t: Token, nowMs: int)
    ensures Verify(t, nowMs).None? ==>
      RefreshGuard(accounts, t, nowMs) == Failure(Unauthorized(InvalidRefreshToken))
    ensures Verify(t, nowMs).Some? && t.claims.payload.kind != Refresh ==>
      RefreshGuard(accounts, t, nowMs) == Failure(Unauthorized(InvalidTokenType))
    ensures Verify(t, nowMs).Some? && t.claims.payload.kind == Refresh ==>
      var id := t.claims.payload.sub;
      && (FindById(accounts, id).None? || accounts[id].refreshToken.None? || accounts[id].refreshTokenExpiresAt.None? ==>
            RefreshGuard(accounts, t, nowMs) == Failure(Unauthorized(SessionRevoked)))
      && (FindById(accounts, id).Some? && accounts[id].refreshToken.Some? && accounts[id].refreshTokenExpiresAt.Some? ==>
            && (accounts[id].refreshTokenExpiresAt.value < nowMs ==>
                  RefreshGuard(accounts, t, nowMs) == Failure(Unauthorized(SessionExpired)))
            && (nowMs <= accounts[id].refreshTokenExpiresAt.value && !Compare(t, accounts[id].refreshToken.value) ==>
                  RefreshGuard(accounts, t, nowMs) == Failure(Unauthorized(InvalidRefreshToken))))
  {
  }

  /** `refresh` never looks at the active flag: switching it leaves every
      decision as it was. */
  lemma RefreshIgnoresIsActive(accounts: seq<Account>, id: Id, active: bool, t: Token, nowMs: int)
    requires id < |accounts|
    ensures RefreshGuard(accounts[id := accounts[id].(isActive := active)], t, nowMs) == RefreshGuard(accounts, t, nowMs)
  {
    var changed := accounts[id := accounts[id].(isActive := active)];
    if !t.Malformed? && t.claims.payload.sub == id {
      assert IsLive(changed[id]) == IsLive(accounts[id]);
    }
  }

  /** Rotation: once `issueTokens` has stored the hash of `refresh` on
      account `id`, no other token continues that account's session. */
  lemma RotationAcceptsOnlyNewToken(accounts: seq<Account>, id: Id, refresh: Token, salt: nat, nowMs: int, t: Token, laterMs: int)
    requires id < |accounts|
    requires RefreshGuard(Rotated(accounts, id, refresh, salt, nowMs), t, laterMs) == Success(id)
    ensures t == refresh
  {
    var rotated := Rotated(accounts, id, refresh, salt, nowMs);
    assert RefreshAccepted(rotated, t, laterMs);
    assert rotated[id].refreshToken == Some(Hash(refresh, salt));
  }

  /** A refresh token is single-use: after it has been exchanged, it is
      refused unless the exchange produced the very same token, which
      happens only within the second it was issued. */
  lemma RefreshIsSingleUse(accounts: seq<Account>, config: TokenConfig, t: Token, nowMs: int, salt: nat, laterMs: int)
    requires RefreshGuard(accounts, t, nowMs).Success?
    ensures
      var id := RefreshGuard(accounts, t, nowMs).value;
      var next := IssuedPair(config, id, accounts[id].email, nowMs).refreshToken;
      && (t.claims.iat != NumericDate(nowMs) ==> next != t)
      && (next != t ==> RefreshGuard(Rotated(accounts, id, next, salt, nowMs), t, laterMs).Failure?)
  {
    var id := RefreshGuard(accounts, t, nowMs).value;
    var next := IssuedPair(config, id, accounts[id].email, nowMs).refreshToken;
    if next != t && RefreshGuard(Rotated(accounts, id, next, salt, nowMs), t, laterMs).Success? {
      RotationAcceptsOnlyNewToken(accounts, id, next, salt, nowMs, t, laterMs);
    }
  }

  /** The refresh token just issued for a live account is accepted while
      both its own lifetime and the stored seven-day window last (an expiry
      equal to the clock still passes), and refused once the stored window
      is over, whatever lifetime the token was signed with. */
  lemma IssuedRefreshTokenLifetime(accounts: seq<Account>, config: TokenConfig, id: Id, salt: nat, nowMs: int, laterMs: int)
    requires FindById(accounts, id).Some?
    ensures
      var next := IssuedPair(config, id, accounts[id].email, nowMs).refreshToken;
      var rotated := Rotated(accounts, id, next, salt, nowMs);
      && (laterMs <= nowMs + SessionWindowMs && NumericDate(laterMs) < NumericDate(nowMs) + config.refreshTtl ==>
            RefreshGuard(rotated, next, laterMs) == Success(id))
      && (laterMs > nowMs + SessionWindowMs ==>
            RefreshGuard(rotated, next, laterMs) == Failure(Unauthorized(SessionExpired))
            || RefreshGuard(rotated, next, laterMs) == Failure(Unauthorized(InvalidRefreshToken)))
  {
    var next := IssuedPair(config, id, accounts[id].email, nowMs).refreshToken;
    var rotated := Rotated(accounts, id, next, salt, nowMs);
    assert rotated[id].refreshTokenExpiresAt == Some(nowMs + SessionWindowMs);
    assert rotated[id].refreshToken == Some(Hash(next, salt));
    assert IsLive(rotated[id]);
  }

  /** Every operation that stores a session stores both fields together. */
  lemma RotationKeepsSessionPaired(accounts: seq<Account>, id: Id, refresh: Token, salt: nat, nowMs: int)
    requires StoreInvariant(accounts) && id < |accounts|
    ensures StoreInvariant(Rotated(accounts, id, refresh, salt, nowMs))
    ensures Rotated(accounts, id, refresh, salt, nowMs)[id].refreshToken.Some?
    ensures Rotated(accounts, id, refresh, salt, nowMs)[id].refreshTokenExpiresAt == Some(nowMs + SessionWindowMs)
  {
    StoreInvariantAfterWrite(accounts, id, WithSession(accounts[id], Hash(refresh, salt), nowMs));
  }

  // ---------------------------------------------------------------------------
  // soft delete

  /** After `remove`, the account is absent from every lookup the service
      authenticates with: by id, by public id, by address at login, and by
      subject at refresh. */
  lemma RemovedAccountIsInvisible(accounts: seq<Account>, id: Id, nowMs: int, email: string, password: string, t: Token, laterMs: int)
    requires StoreInvariant(accounts)
    requires FindById(accounts, id).Some?
    requires ToLower(email) == accounts[id].email
    ensures var removed := SoftDeleted(accounts, id, nowMs);
      && FindById(removed, id).None?
      && FindByIdPublic(removed, id).None?
      && FindOne(removed, id) == Failure(NotFound(AccountNotFound))
      && LoginGuard(removed, email, password) == Failure(Unauthorized(InvalidCredentials))
      && (t.Signed? && t.claims.payload.sub == id ==> RefreshGuard(removed, t, laterMs).Failure?)
  {
    var removed := SoftDeleted(accounts, id, nowMs);
    forall i | 0 <= i < |removed| && IsLive(removed[i])
      ensures removed[i].email != ToLower(email)
    {
      assert i != id;
      UniqueIndexGivesOneLivePerEmail(accounts, i, id) by {
        assert IsLive(accounts[i]);
      }
    }
    LoginWithoutAccount(removed, email, password);
  }

  /** A removed account's address cannot be registered again: no live
      record holds it, so there is no Conflict, but the unique index still
      refuses the insert. */
  lemma ReRegistrationAfterRemoval(accounts: seq<Account>, id: Id, nowMs: int, email: string)
    requires StoreInvariant(accounts)
    requires FindById(accounts, id).Some?
    requires ToLower(email) == accounts[id].email
    ensures FindLiveByEmail(SoftDeleted(accounts, id, nowMs), ToLower(email)).None?
    ensures FindAnyByEmail(SoftDeleted(accounts, id, nowMs), ToLower(email)).Some?
  {
    var removed := SoftDeleted(accounts, id, nowMs);
    forall i | 0 <= i < |removed| && IsLive(removed[i])
      ensures removed[i].email != ToLower(email)
    {
      assert i != id;
      UniqueIndexGivesOneLivePerEmail(accounts, i, id) by {
        assert IsLive(accounts[i]);
      }
    }
    assert Matches(removed[id], ToLower(email), false);
  }

  // ---------------------------------------------------------------------------
  // findAll

  lemma MulMonotone(a: int, b: int, d: int)
    requires a <= b && d >= 0
    ensures a * d <= b * d
  {
  }

  /** A page holds records exactly when its number is at most `totalPages`.
      The proof rests on comparing the products of `limit` with the page
      number and with `totalPages`. */
  lemma PageNonEmptyIff(accounts: seq<Account>, page: int, limit: int, role: Option<Role>)
    requires page >= 1 && limit >= 1
    ensures var r := FindAll(accounts, Some(page), Some(limit), role);
      |r.data| > 0 <==> page <= r.totalPages
  {
    var r := FindAll(accounts, Some(page), Some(limit), role);
    var q := r.totalPages;
    assert IsCeilQuotient(q, r.total, limit);
    if page <= q {
      MulMonotone(page - 1, q - 1, limit);
    } else {
      MulMonotone(q, page - 1, limit);
    }
  }

  /** The pages cover the listing: record `k` of the listing is entry
      `k % limit` of page `k / limit + 1`. */
  lemma EveryRecordOnItsPage(accounts: seq<Account>, limit: int, role: Option<Role>, k: nat)
    requires limit >= 1 && k < |Listed(accounts, role)|
    ensures var r := FindAll(accounts, Some(k / limit + 1), Some(limit), role);
      k % limit < |r.data| && r.data[k % limit] == Listed(accounts, role)[k]
  {
    var page := k / limit + 1;
    assert Skip(page, limit) == k - k % limit;
  }

  /** Listing with a role shows exactly the live records of that role. */
  lemma ListingShowsLiveRecordsOfRole(accounts: seq<Account>, role: Option<Role>, i: Id)
    requires i < |accounts|
    ensures Public(i, accounts[i]) in Listed(accounts, role) <==> Listable(accounts[i], role)
  {
    var all := Listed(accounts, role);
    ListedFromSound(accounts, role, 0);
    ListedFromComplete(accounts, role, 0);
    if Public(i, accounts[i]) in all {
      var k :| 0 <= k < |all| && all[k] == Public(i, accounts[i]);
      assert all[k].id == i;
    }
  }

  // ---------------------------------------------------------------------------
  // Scenarios on the service

  /** Sign up, exchange the refresh token one second or more later, then
      present the same token again while the new session lasts: the first
      exchange succeeds and the second is refused as an invalid token,
      because the first stored the hash of a new one. */
  method RefreshTokenIsSingleUse(s: AccountsService, email: string, password: string,
                                 t0: int, t1: int, t2: int, salt0: nat, salt1: nat, salt2: nat, salt3: nat)
    returns (first: Result<TokenPair, Error>, second: Result<TokenPair, Error>)
    requires s.Valid()
    requires FindAnyByEmail(s.accounts, ToLower(email)).None?
    requires NumericDate(t0) < NumericDate(t1) < NumericDate(t0) + s.config.refreshTtl
    requires t1 <= t0 + SessionWindowMs && t1 <= t2 <= t1 + SessionWindowMs
    modifies s
    ensures s.Valid()
    ensures first.Success? && second == Failure(Unauthorized(InvalidRefreshToken))
  {
    var signed := s.Signup(email, password, None, None, t0, salt0, salt1);
    var id := |s.accounts| - 1;
    var token := signed.value.refreshToken;
    assert token == IssuedPair(s.config, id, ToLower(email), t0).refreshToken;
    assert IsLive(s.accounts[id]) && s.accounts[id].refreshToken == Some(Hash(token, salt1));
    assert RefreshAccepted(s.accounts, token, t1);
    ghost var before := s.accounts;
    first := s.Refresh(token, t1, salt2);
    var next := first.value.refreshToken;
    assert next.claims.iat == NumericDate(t1) != token.claims.iat;
    assert s.accounts == Rotated(before, id, next, salt2, t1);
    assert s.accounts[id].refreshTokenExpiresAt == Some(t1 + SessionWindowMs);
    RefreshRejectionOrder(s.accounts, token, t2);
    second := s.Refresh(token, t2, salt3);
  }

  /** A second `remove` of the same id finds no live record. */
  method SecondRemovalFails(s: AccountsService, id: Id, t0: int, t1: int)
    returns (first: Result<(), Error>, second: Result<(), Error>)
    requires s.Valid() && FindById(s.accounts, id).Some?
    modifies s
    ensures s.Valid()
    ensures first == Success(()) && second == Failure(NotFound(AccountNotFound))
  {
    first := s.Remove(id, t0);
    second := s.Remove(id, t1);
  }
}
