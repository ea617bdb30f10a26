/**
 * The account service: registration, credential check, token issuance and
 * rotation, profile update, soft delete, and the reads over the collection.
 * The collection is a sequence of records held by `AccountsService`; the
 * reads are functions over that sequence and the operations that write to
 * the collection are methods of the class.
 */
module Accounts {
  import opened Wrappers
  import opened Bcrypt
  import opened Jwt
  import opened AccountSchema

  /** The exceptions the service throws, as values. `DuplicateKey` is the
      store's own error when an insert breaks the unique index on `email`. */
  datatype Error =
    | Conflict(message: string)
    | Unauthorized(message: string)
    | NotFound(message: string)
    | DuplicateKey

  const EmailAlreadyRegistered := "Email already registered"
  const InvalidCredentials := "Invalid credentials"
  const AccountDisabled := "Account disabled"
  const InvalidRefreshToken := "Invalid refresh token"
  const InvalidTokenType := "Invalid token type"
  const SessionRevoked := "Refresh token revoked or expired"
  const SessionExpired := "Refresh token expired"
  const AccountNotFound := "Account not found"

  /** The stored session lasts seven days from issuance (in milliseconds),
      whatever lifetime the signed refresh token was given. */
  const SessionWindowMs: int := 7 * 24 * 60 * 60 * 1000

  /** The signed lifetimes, in seconds: JWT_ACCESS_EXPIRY and JWT_REFRESH_EXPIRY. */
  datatype TokenConfig = TokenConfig(accessTtl: int, refreshTtl: int)

  /** The lifetimes when neither key is configured: `15m` and `7d`. */
  const DefaultTokenConfig := TokenConfig(15 * 60, 7 * 24 * 60 * 60)

  /** `{ access_token, refresh_token }`. */
  datatype TokenPair = TokenPair(accessToken: Token, refreshToken: Token)

  // ---------------------------------------------------------------------------
  // Email normalisation (ASCII lower-casing)

  function LowerChar(c: char): char {
    if 'A' <= c <= 'Z' then (c as int + 32) as char else c
  }

  predicate IsLowerCase(s: string) {
    forall i :: 0 <= i < |s| ==> !('A' <= s[i] <= 'Z')
  }

  /** `toLowerCase()` on ASCII letters; other characters are kept. */
  function ToLower(s: string): (r: string)
    ensures |r| == |s|
    ensures forall i :: 0 <= i < |s| ==> r[i] == LowerChar(s[i])
    ensures IsLowerCase(r)
  {
    if s == [] then [] else [LowerChar(s[0])] + ToLower(s[1..])
  }

  /** Lower-casing twice is lower-casing once, and a lower-case address is
      its own normal form. */
  lemma ToLowerIdempotent(s: string)
    ensures ToLower(ToLower(s)) == ToLower(s)
    ensures IsLowerCase(s) ==> ToLower(s) == s
  {
  }

  // ---------------------------------------------------------------------------
  // Reads

  predicate Matches(a: Account, email: string, liveOnly: bool) {
    a.email == email && (liveOnly ==> IsLive(a))
  }

  /** The first record at or after `from` with address `email` (only live
      ones when `liveOnly`), in the collection's natural order. */
  function FindEmailFrom(accounts: seq<Account>, email: string, liveOnly: bool, from: nat): (r: Option<Id>)
    decreases |accounts| - from
    ensures r.Some? ==> from <= r.value < |accounts| && Matches(accounts[r.value], email, liveOnly)
    ensures r.Some? ==> forall j :: from <= j < r.value ==> !Matches(accounts[j], email, liveOnly)
    ensures r.None? ==> forall j :: from <= j < |accounts| ==> !Matches(accounts[j], email, liveOnly)
  {
    if from >= |accounts| then None
    else if Matches(accounts[from], email, liveOnly) then Some(from)
    else FindEmailFrom(accounts, email, liveOnly, from + 1)
  }

  /** `findOne({ email, deletedAt: null })`: the first live record with that
      address, or none when no live record has it. */
  function FindLiveByEmail(accounts: seq<Account>, email: string): (r: Option<Id>)
    ensures r.Some? ==> r.value < |accounts| && IsLive(accounts[r.value]) && accounts[r.value].email == email
    ensures r.None? <==> forall j :: 0 <= j < |accounts| ==> !(IsLive(accounts[j]) && accounts[j].email == email)
  {
    FindEmailFrom(accounts, email, true, 0)
  }

  /** A record holding `email`, soft-deleted or not: what the unique index sees. */
  function FindAnyByEmail(accounts: seq<Account>, email: string): (r: Option<Id>)
    ensures r.Some? ==> r.value < |accounts| && accounts[r.value].email == email
    ensures r.None? <==> forall j :: 0 <= j < |accounts| ==> accounts[j].email != email
  {
    FindEmailFrom(accounts, email, false, 0)
  }

  /** `findById`: the live record with that id, secrets included. */
  function FindById(accounts: seq<Account>, id: Id): (r: Option<Account>)
    ensures r.Some? <==> id < |accounts| && IsLive(accounts[id])
    ensures r.Some? ==> r.value == accounts[id]
  {
    if id < |accounts| && IsLive(accounts[id]) then Some(accounts[id]) else None
  }

  /** `findByIdPublic`: the same lookup, projected without the hidden fields. */
  function FindByIdPublic(accounts: seq<Account>, id: Id): (r: Option<PublicAccount>)
    ensures r.Some? <==> FindById(accounts, id).Some?
    ensures r.Some? ==> r.value == Public(id, accounts[id])
  {
    match FindById(accounts, id)
    case None => None
    case Some(a) => Some(Public(id, a))
  }

  /** `findOne`: `findByIdPublic`, with NotFound for a missing or deleted record. */
  function FindOne(accounts: seq<Account>, id: Id): (r: Result<PublicAccount, Error>)
    ensures r.Failure? <==> FindById(accounts, id).None?
    ensures r.Failure? ==> r.error == NotFound(AccountNotFound)
    ensures r.Success? ==> r.value == Public(id, accounts[id])
  {
    match FindByIdPublic(accounts, id)
    case None => Failure(NotFound(AccountNotFound))
    case Some(p) => Success(p)
  }

  // ---------------------------------------------------------------------------
  // Listing with pages

  /** The `findAll` filter: live, and of the requested role if one is given. */
  predicate Listable(a: Account, role: Option<Role>) {
    IsLive(a) && (role.Some? ==> a.role == role.value)
  }

  /** The listable records from `from` on, projected, in natural order. */
  function ListedFrom(accounts: seq<Account>, role: Option<Role>, from: nat): (r: seq<PublicAccount>)
    decreases |accounts| - from
    ensures from <= |accounts| ==> |r| <= |accounts| - from
  {
    if from >= |accounts| then []
    else
      var rest := ListedFrom(accounts, role, from + 1);
      if Listable(accounts[from], role) then [Public(from, accounts[from])] + rest else rest
  }

  function Listed(accounts: seq<Account>, role: Option<Role>): seq<PublicAccount> {
    ListedFrom(accounts, role, 0)
  }

  /** `e` is the public view of a listable record at or after `from`. */
  predicate ListsRecord(accounts: seq<Account>, role: Option<Role>, from: nat, e: PublicAccount) {
    from <= e.id < |accounts| && Listable(accounts[e.id], role) && e == Public(e.id, accounts[e.id])
  }

  /** Every entry of the listing from `from` on is the public view of a
      listable record at or after `from`, and the ids increase. */
  lemma {:induction false} ListedFromSound(accounts: seq<Account>, role: Option<Role>, from: nat)
    decreases |accounts| - from
    ensures forall k :: 0 <= k < |ListedFrom(accounts, role, from)| ==>
      ListsRecord(accounts, role, from, ListedFrom(accounts, role, from)[k])
    ensures forall k, l :: 0 <= k < l < |ListedFrom(accounts, role, from)| ==>
      ListedFrom(accounts, role, from)[k].id < ListedFrom(accounts, role, from)[l].id
  {
    if from < |accounts| {
      ListedFromSound(accounts, role, from + 1);
      var rest := ListedFrom(accounts, role, from + 1);
      var r := ListedFrom(accounts, role, from);
      if Listable(accounts[from], role) {
        assert r == [Public(from, accounts[from])] + rest;
        forall k | 0 <= k < |r|
          ensures ListsRecord(accounts, role, from, r[k])
        {
          if k > 0 {
            assert r[k] == rest[k - 1];
            assert ListsRecord(accounts, role, from + 1, rest[k - 1]);
          }
        }
        forall k, l | 0 <= k < l < |r|
          ensures r[k].id < r[l].id
        {
          assert r[l] == rest[l - 1];
          assert ListsRecord(accounts, role, from + 1, rest[l - 1]);
          if k > 0 {
            assert r[k] == rest[k - 1];
          }
        }
      } else {
        assert r == rest;
        forall k | 0 <= k < |r|
          ensures ListsRecord(accounts, role, from, r[k])
        {
          assert ListsRecord(accounts, role, from + 1, rest[k]);
        }
      }
    }
  }

  /** Every listable record at or after `from` is in the listing. */
  lemma {:induction false} ListedFromComplete(accounts: seq<Account>, role: Option<Role>, from: nat)
    decreases |accounts| - from
    ensures forall i :: from <= i < |accounts| && Listable(accounts[i], role) ==>
      Public(i, accounts[i]) in ListedFrom(accounts, role, from)
  {
    if from < |accounts| {
      ListedFromComplete(accounts, role, from + 1);
      var rest := ListedFrom(accounts, role, from + 1);
      if Listable(accounts[from], role) {
        var r := ListedFrom(accounts, role, from);
        assert r == [Public(from, accounts[from])] + rest;
        assert r[0] == Public(from, accounts[from]);
        forall i | from < i < |accounts| && Listable(accounts[i], role)
          ensures Public(i, accounts[i]) in r
        {
          var k :| 0 <= k < |rest| && rest[k] == Public(i, accounts[i]);
          assert r[k + 1] == rest[k];
        }
      }
    }
  }

  /** The response of `findAll`. */
  datatype Page = Page(data: seq<PublicAccount>, total: nat, page: int, limit: int, totalPages: int)

  function Min(a: int, b: int): int {
    if a <= b then a else b
  }

  /** `q` is the rounded-up quotient of `n` by `d`. */
  predicate IsCeilQuotient(q: int, n: int, d: int) {
    (q - 1) * d < n <= q * d
  }

  /** `Math.ceil(n / d)` for whole numbers. */
  function CeilDiv(n: nat, d: int): (q: nat)
    requires d >= 1
    ensures IsCeilQuotient(q, n, d)
  {
    var q := (n + d - 1) / d;
    assert q * d <= n + d - 1 < q * d + d;
    q
  }

  /** `(page - 1) * limit`, the number of records a page skips. */
  function Skip(page: int, limit: int): (n: nat)
    requires page >= 1 && limit >= 1
    ensures n + limit == page * limit
  {
    (page - 1) * limit
  }

  /** At most `limit` elements of `all` from position `skip` on. */
  function Window(all: seq<PublicAccount>, skip: nat, limit: nat): (w: seq<PublicAccount>)
    ensures |w| == if skip >= |all| then 0 else Min(limit, |all| - skip)
    ensures forall k :: 0 <= k < |w| ==> skip + k < |all| && w[k] == all[skip + k]
  {
    if skip >= |all| then [] else all[skip .. Min(skip + limit, |all|)]
  }

  /** `findAll`: page `page` (default 1) of at most `limit` (default 10)
      listable records, with the total count of listable records and the
      number of pages. */
  function FindAll(accounts: seq<Account>, page: Option<int>, limit: Option<int>, role: Option<Role>): (r: Page)
    requires page.Some? ==> page.value >= 1
    requires limit.Some? ==> limit.value >= 1
    ensures r.page == page.GetOr(1) && r.limit == limit.GetOr(10)
    ensures r.total == |Listed(accounts, role)|
    ensures |r.data| <= r.limit
    ensures |r.data| == if Skip(r.page, r.limit) >= r.total then 0 else Min(r.limit, r.total - Skip(r.page, r.limit))
    ensures forall k :: 0 <= k < |r.data| ==>
      Skip(r.page, r.limit) + k < r.total && r.data[k] == Listed(accounts, role)[Skip(r.page, r.limit) + k]
    ensures IsCeilQuotient(r.totalPages, r.total, r.limit)
  {
    var p := page.GetOr(1);
    var l := limit.GetOr(10);
    var all := Listed(accounts, role);
    var skip := Skip(p, l);
    var data := Window(all, skip, l);
    var pages := CeilDiv(|all|, l);
    assert |data| == if skip >= |all| then 0 else Min(l, |all| - skip);
    Page(data, |all|, p, l, pages)
  }

  // ---------------------------------------------------------------------------
  // The decisions of login and refresh

  /** What `login` decides before it issues tokens: the account to log in,
      or the error it throws. */
  function LoginGuard(accounts: seq<Account>, email: string, password: string): (r: Result<Id, Error>)
    ensures r.Success? ==>
      && r.value < |accounts| && IsLive(accounts[r.value])
      && accounts[r.value].email == ToLower(email)
      && Compare(password, accounts[r.value].password)
      && accounts[r.value].isActive
    ensures r.Failure? ==>
      r.error == Unauthorized(InvalidCredentials) || r.error == Unauthorized(AccountDisabled)
  {
    match FindLiveByEmail(accounts, ToLower(email))
    case None => Failure(Unauthorized(InvalidCredentials))
    case Some(id) =>
      if !Compare(password, accounts[id].password) then Failure(Unauthorized(InvalidCredentials))
      else if !accounts[id].isActive then Failure(Unauthorized(AccountDisabled))
      else Success(id)
  }

  /** The first four checks of `refresh`: the token verifies, is a refresh
      token, names a live account that holds a session, and that session has
      not expired. Yields the account and its stored hash. */
  function StoredSession(accounts: seq<Account>, t: Token, nowMs: int): (r: Result<(Id, Digest<Token>), Error>)
    ensures r.Success? ==>
      && t.Signed? && Verify(t, nowMs) == Some(t.claims)
      && t.claims.payload.kind == Refresh
      && r.value.0 == t.claims.payload.sub
      && FindById(accounts, r.value.0).Some?
      && accounts[r.value.0].refreshToken == Some(r.value.1)
      && accounts[r.value.0].refreshTokenExpiresAt.Some?
      && nowMs <= accounts[r.value.0].refreshTokenExpiresAt.value
  {
    match Verify(t, nowMs)
    case None => Failure(Unauthorized(InvalidRefreshToken))
    case Some(c) =>
      if c.payload.kind != Refresh then Failure(Unauthorized(InvalidTokenType))
      else
        match FindById(accounts, c.payload.sub)
        case None => Failure(Unauthorized(SessionRevoked))
        case Some(a) =>
          if a.refreshToken.None? || a.refreshTokenExpiresAt.None? then Failure(Unauthorized(SessionRevoked))
          else if a.refreshTokenExpiresAt.value < nowMs then Failure(Unauthorized(SessionExpired))
          else Success((c.payload.sub, a.refreshToken.value))
  }

  /** Everything `refresh` demands of a presented token, stated at once. */
  ghost predicate RefreshAccepted(accounts: seq<Account>, t: Token, nowMs: int) {
    && t.Signed?
    && NumericDate(nowMs) < t.claims.exp
    && t.claims.payload.kind == Refresh
    && var id := t.claims.payload.sub;
    && id < |accounts| && IsLive(accounts[id])
    && accounts[id].refreshToken.Some?
    && accounts[id].refreshTokenExpiresAt.Some?
    && nowMs <= accounts[id].refreshTokenExpiresAt.value
    && Compare(t, accounts[id].refreshToken.value)
  }

  /** What `refresh` decides before it issues tokens: the account whose
      session the token continues, or the error it throws. */
  function RefreshGuard(accounts: seq<Account>, t: Token, nowMs: int): (r: Result<Id, Error>)
    ensures r.Success? <==> RefreshAccepted(accounts, t, nowMs)
    ensures r.Success? ==> r.value == t.claims.payload.sub
    ensures r.Failure? ==> r.error.Unauthorized?
  {
    match StoredSession(accounts, t, nowMs)
    case Failure(e) => Failure(e)
    case Success((id, stored)) =>
      if Compare(t, stored) then Success(id) else Failure(Unauthorized(InvalidRefreshToken))
  }

  // ---------------------------------------------------------------------------
  // What the writes produce

  /** The two tokens `issueTokens` signs for account `id`. */
  function IssuedPair(config: TokenConfig, id: Id, email: string, nowMs: int): (p: TokenPair)
    ensures p.accessToken.Signed? && p.refreshToken.Signed?
    ensures p.accessToken.claims.payload == Payload(id, email, Access)
    ensures p.refreshToken.claims.payload == Payload(id, email, Refresh)
    ensures p.accessToken.claims.exp == NumericDate(nowMs) + config.accessTtl
    ensures p.refreshToken.claims.exp == NumericDate(nowMs) + config.refreshTtl
  {
    TokenPair(
      Sign(Payload(id, email, Access), nowMs, config.accessTtl),
      Sign(Payload(id, email, Refresh), nowMs, config.refreshTtl))
  }

  /** The `$set` of `issueTokens`: a new stored hash and a seven-day expiry;
      the `timestamps` option also moves `updatedAt`. Nothing else changes. */
  function WithSession(a: Account, stored: Digest<Token>, nowMs: int): (b: Account)
    ensures b.refreshToken == Some(stored)
    ensures b.refreshTokenExpiresAt == Some(nowMs + SessionWindowMs)
    ensures b.updatedAt == nowMs
    ensures b.(refreshToken := a.refreshToken, refreshTokenExpiresAt := a.refreshTokenExpiresAt, updatedAt := a.updatedAt) == a
  {
    a.(refreshToken := Some(stored), refreshTokenExpiresAt := Some(nowMs + SessionWindowMs), updatedAt := nowMs)
  }

  /** The collection after `issueTokens` stored the hash of `refresh` on record `id`. */
  function Rotated(accounts: seq<Account>, id: Id, refresh: Token, salt: nat, nowMs: int): (r: seq<Account>)
    requires id < |accounts|
    ensures |r| == |accounts|
    ensures forall j :: 0 <= j < |accounts| && j != id ==> r[j] == accounts[j]
    ensures r[id] == WithSession(accounts[id], Hash(refresh, salt), nowMs)
  {
    accounts[id := WithSession(accounts[id], Hash(refresh, salt), nowMs)]
  }

  /** The `$set: dto` of `update`: the given fields, plus `updatedAt`. */
  function Updated(a: Account, role: Option<Role>, isActive: Option<bool>, nowMs: int): (b: Account)
    ensures b.role == role.GetOr(a.role) && b.isActive == isActive.GetOr(a.isActive)
    ensures b.updatedAt == nowMs
    ensures b.(role := a.role, isActive := a.isActive, updatedAt := a.updatedAt) == a
  {
    a.(role := role.GetOr(a.role), isActive := isActive.GetOr(a.isActive), updatedAt := nowMs)
  }

  /** The collection after `remove` marked record `id` deleted at `nowMs`. */
  function SoftDeleted(accounts: seq<Account>, id: Id, nowMs: int): (r: seq<Account>)
    requires id < |accounts|
    ensures |r| == |accounts|
    ensures forall j :: 0 <= j < |accounts| && j != id ==> r[j] == accounts[j]
    ensures r[id] == accounts[id].(deletedAt := Some(nowMs), updatedAt := nowMs)
    ensures !IsLive(r[id])
  {
    accounts[id := accounts[id].(deletedAt := Some(nowMs), updatedAt := nowMs)]
  }

  /** What holds of the collection between operations: the unique index,
      normalised addresses, and paired session fields. */
  ghost predicate StoreInvariant(accounts: seq<Account>) {
    && EmailsUnique(accounts)
    && (forall i :: 0 <= i < |accounts| ==> IsLowerCase(accounts[i].email))
    && (forall i :: 0 <= i < |accounts| ==> SessionPaired(accounts[i]))
  }

  /** Changing a record without touching its address or session pairing
      keeps the invariant. */
  lemma StoreInvariantAfterWrite(accounts: seq<Account>, id: Id, b: Account)
    requires StoreInvariant(accounts) && id < |accounts|
    requires b.email == accounts[id].email && SessionPaired(b)
    ensures StoreInvariant(accounts[id := b])
  {
    var r := accounts[id := b];
    forall i, j | 0 <= i < j < |r|
      ensures r[i].email != r[j].email
    {
      assert r[i].email == accounts[i].email && r[j].email == accounts[j].email;
    }
  }

  // ---------------------------------------------------------------------------
  // The service

  class AccountsService {
    /** The `accounts` collection, in insertion order. */
    var accounts: seq<Account>
    /** The configured token lifetimes. */
    const config: TokenConfig

    ghost predicate Valid()
      reads this
    {
      StoreInvariant(accounts)
    }

    constructor (config: TokenConfig)
      ensures Valid()
      ensures accounts == [] && this.config == config
    {
      accounts := [];
      this.config := config;
    }

    /** `create`: insert a record for the lower-cased address, unless a live
        record already has it (Conflict) or a deleted one does (the unique
        index refuses the insert). Returns the new record's id. */
    method Create(email: string, password: string, role: Option<Role>, isActive: Option<bool>, nowMs: int, salt: nat)
      returns (r: Result<Id, Error>)
      requires Valid()
      modifies this
      ensures Valid()
      ensures FindLiveByEmail(old(accounts), ToLower(email)).Some? ==>
        r == Failure(Conflict(EmailAlreadyRegistered)) && accounts == old(accounts)
      ensures FindLiveByEmail(old(accounts), ToLower(email)).None? && FindAnyByEmail(old(accounts), ToLower(email)).Some? ==>
        r == Failure(DuplicateKey) && accounts == old(accounts)
      ensures FindAnyByEmail(old(accounts), ToLower(email)).None? ==>
        && r == Success(|old(accounts)|)
        && accounts == old(accounts) + [NewAccount(ToLower(email), Hash(password, salt), role, isActive, nowMs)]
    {
      var lower := ToLower(email);
      var existing := FindLiveByEmail(accounts, lower);
      if existing.Some? {
        r := Failure(Conflict(EmailAlreadyRegistered));
        return;
      }
      var hashed := Hash(password, salt);
      if FindAnyByEmail(accounts, lower).Some? {
        r := Failure(DuplicateKey);
        return;
      }
      var doc := NewAccount(lower, hashed, role, isActive, nowMs);
      r := Success(|accounts|);
      accounts := accounts + [doc];
    }

    /** `issueTokens`: sign an access and a refresh token for record `id`
        and store the hash of the refresh token with a seven-day expiry. */
    method IssueTokens(id: Id, nowMs: int, salt: nat) returns (pair: TokenPair)
      requires Valid() && id < |accounts|
      modifies this
      ensures Valid()
      ensures pair == IssuedPair(config, id, old(accounts)[id].email, nowMs)
      ensures accounts == Rotated(old(accounts), id, pair.refreshToken, salt, nowMs)
    {
      var email := accounts[id].email;
      var access := Sign(Payload(id, email, Access), nowMs, config.accessTtl);
      var refresh := Sign(Payload(id, email, Kind.Refresh), nowMs, config.refreshTtl);
      var expiresAt := nowMs + SessionWindowMs;
      var hashed := Hash(refresh, salt);
      StoreInvariantAfterWrite(accounts, id, WithSession(accounts[id], hashed, nowMs));
      accounts := accounts[id := accounts[id].(refreshToken := Some(hashed), refreshTokenExpiresAt := Some(expiresAt), updatedAt := nowMs)];
      pair := TokenPair(access, refresh);
    }

    /** `signup`: `create`, then `issueTokens` for the new record. */
    method Signup(email: string, password: string, role: Option<Role>, isActive: Option<bool>, nowMs: int, passwordSalt: nat, tokenSalt: nat)
      returns (r: Result<TokenPair, Error>)
      requires Valid()
      modifies this
      ensures Valid()
      ensures FindAnyByEmail(old(accounts), ToLower(email)).Some? ==>
        && accounts == old(accounts)
        && r == Failure(if FindLiveByEmail(old(accounts), ToLower(email)).Some? then Conflict(EmailAlreadyRegistered) else DuplicateKey)
      ensures FindAnyByEmail(old(accounts), ToLower(email)).None? ==>
        && r == Success(IssuedPair(config, |old(accounts)|, ToLower(email), nowMs))
        && accounts == old(accounts) + [WithSession(NewAccount(ToLower(email), Hash(password, passwordSalt), role, isActive, nowMs),
                                                    Hash(r.value.refreshToken, tokenSalt), nowMs)]
    {
      var created := Create(email, password, role, isActive, nowMs, passwordSalt);
      if created.Failure? {
        r := Failure(created.error);
        return;
      }
      var pair := IssueTokens(created.value, nowMs, tokenSalt);
      r := Success(pair);
    }

    /** `login`: find the live record by lower-cased address, check the
        password, then the active flag, then issue tokens. */
    method Login(email: string, password: string, nowMs: int, salt: nat) returns (r: Result<TokenPair, Error>)
      requires Valid()
      modifies this
      ensures Valid()
      ensures LoginGuard(old(accounts), email, password).Failure? ==>
        r == Failure(LoginGuard(old(accounts), email, password).error) && accounts == old(accounts)
      ensures LoginGuard(old(accounts), email, password).Success? ==>
        var id := LoginGuard(old(accounts), email, password).value;
        && r == Success(IssuedPair(config, id, old(accounts)[id].email, nowMs))
        && accounts == Rotated(old(accounts), id, r.value.refreshToken, salt, nowMs)
    {
      var doc := FindLiveByEmail(accounts, ToLower(email));
      if doc.None? || !Compare(password, accounts[doc.value].password) {
        r := Failure(Unauthorized(InvalidCredentials));
        return;
      }
      if !accounts[doc.value].isActive {
        r := Failure(Unauthorized(AccountDisabled));
        return;
      }
      var pair := IssueTokens(doc.value, nowMs, salt);
      r := Success(pair);
    }

    /** `refresh`: verify the token, check its kind, find the stored session,
        check its expiry, compare the token with the stored hash, and rotate. */
    method Refresh(token: Token, nowMs: int, salt: nat) returns (r: Result<TokenPair, Error>)
      requires Valid()
      modifies this
      ensures Valid()
      ensures RefreshGuard(old(accounts), token, nowMs).Failure? ==>
        r == Failure(RefreshGuard(old(accounts), token, nowMs).error) && accounts == old(accounts)
      ensures RefreshGuard(old(accounts), token, nowMs).Success? ==>
        var id := RefreshGuard(old(accounts), token, nowMs).value;
        && r == Success(IssuedPair(config, id, old(accounts)[id].email, nowMs))
        && accounts == Rotated(old(accounts), id, r.value.refreshToken, salt, nowMs)
    {
      var payload := Verify(token, nowMs);
      if payload.None? {
        r := Failure(Unauthorized(InvalidRefreshToken));
        return;
      }
      if payload.value.payload.kind != Kind.Refresh {
        r := Failure(Unauthorized(InvalidTokenType));
        return;
      }
      var id := payload.value.payload.sub;
      var doc := FindById(accounts, id);
      if doc.None? || doc.value.refreshToken.None? || doc.value.refreshTokenExpiresAt.None? {
        r := Failure(Unauthorized(SessionRevoked));
        return;
      }
      if doc.value.refreshTokenExpiresAt.value < nowMs {
        r := Failure(Unauthorized(SessionExpired));
        return;
      }
      if !Compare(token, doc.value.refreshToken.value) {
        r := Failure(Unauthorized(InvalidRefreshToken));
        return;
      }
      var pair := IssueTokens(id, nowMs, salt);
      r := Success(pair);
    }

    /** `update`: set the given role and active flag on a live record and
        return its public view; NotFound for a missing or deleted record. */
    method Update(id: Id, role: Option<Role>, isActive: Option<bool>, nowMs: int) returns (r: Result<PublicAccount, Error>)
      requires Valid()
      modifies this
      ensures Valid()
      ensures FindById(old(accounts), id).None? ==>
        r == Failure(NotFound(AccountNotFound)) && accounts == old(accounts)
      ensures FindById(old(accounts), id).Some? ==>
        && accounts == old(accounts)[id := Updated(old(accounts)[id], role, isActive, nowMs)]
        && r == Success(Public(id, accounts[id]))
    {
      if FindById(accounts, id).None? {
        r := Failure(NotFound(AccountNotFound));
        return;
      }
      var updated := Updated(accounts[id], role, isActive, nowMs);
      StoreInvariantAfterWrite(accounts, id, updated);
      accounts := accounts[id := updated];
      r := Success(Public(id, updated));
    }

    /** `remove`: mark a live record deleted; NotFound when no live record
        has that id, so a second removal fails. */
    method Remove(id: Id, nowMs: int) returns (r: Result<(), Error>)
      requires Valid()
      modifies this
      ensures Valid()
      ensures FindById(old(accounts), id).None? ==>
        r == Failure(NotFound(AccountNotFound)) && accounts == old(accounts)
      ensures FindById(old(accounts), id).Some? ==>
        r == Success(()) && accounts == SoftDeleted(old(accounts), id, nowMs)
    {
      if FindById(accounts, id).None? {
        r := Failure(NotFound(AccountNotFound));
        return;
      }
      StoreInvariantAfterWrite(accounts, id, accounts[id].(deletedAt := Some(nowMs), updatedAt := nowMs));
      accounts := accounts[id := accounts[id].(deletedAt := Some(nowMs), updatedAt := nowMs)];
      r := Success(());
    }
  }
}
