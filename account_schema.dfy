/**
 * The stored account record: its fields, the role enum, the defaults the
 * schema applies, which fields a default read hides, and the unique index on
 * `email`.
 */
module AccountSchema {
  import opened Wrappers
  import opened Bcrypt
  import opened Jwt

  /** `AccountRole`. */
  datatype Role = Admin | User

  /** A record's `_id`. Records are kept in insertion order, so the id is the
      position of the record in the collection. */
  type Id = nat

  /** One document of the `accounts` collection. Times are milliseconds.
      `password`, `refreshToken` and `refreshTokenExpiresAt` are the
      `select: false` fields; `createdAt` and `updatedAt` are maintained by
      the schema's `timestamps` option. */
  datatype Account = Account(
    email: string,
    password: Digest<string>,
    role: Role,
    isActive: bool,
    refreshToken: Option<Digest<Token>>,
    refreshTokenExpiresAt: Option<int>,
    deletedAt: Option<int>,
    createdAt: int,
    updatedAt: int)

  /** What a read with `-password -refreshToken -refreshTokenExpiresAt` returns:
      the record without its secrets. */
  datatype PublicAccount = PublicAccount(
    id: Id,
    email: string,
    role: Role,
    isActive: bool,
    deletedAt: Option<int>,
    createdAt: int,
    updatedAt: int)

  const DefaultRole: Role := User
  const DefaultIsActive: bool := true

  /** A record as inserted with `role` and `isActive` possibly left out: the
      schema fills in its defaults, `deletedAt` starts as null and no session
      is stored. */
  function NewAccount(email: string, password: Digest<string>, role: Option<Role>, isActive: Option<bool>, now: int): (a: Account)
    ensures a.email == email && a.password == password
    ensures role.None? ==> a.role == User
    ensures role.Some? ==> a.role == role.value
    ensures isActive.None? ==> a.isActive
    ensures isActive.Some? ==> a.isActive == isActive.value
    ensures IsLive(a) && a.refreshToken.None? && a.refreshTokenExpiresAt.None?
    ensures a.createdAt == now && a.updatedAt == now
  {
    Account(email, password, role.GetOr(DefaultRole), isActive.GetOr(DefaultIsActive), None, None, None, now, now)
  }

  /** `deletedAt: null`, the filter every lookup of the service applies. */
  predicate IsLive(a: Account) {
    a.deletedAt.None?
  }

  /** The projection of record `id` that leaves out the hidden fields. */
  function Public(id: Id, a: Account): PublicAccount {
    PublicAccount(id, a.email, a.role, a.isActive, a.deletedAt, a.createdAt, a.updatedAt)
  }

  /** Two records that differ only in hidden fields read the same in public. */
  lemma PublicHidesSecrets(id: Id, a: Account, password: Digest<string>, token: Option<Digest<Token>>, expiresAt: Option<int>)
    ensures Public(id, a.(password := password, refreshToken := token, refreshTokenExpiresAt := expiresAt)) == Public(id, a)
    ensures Public(id, a).email == a.email && Public(id, a).isActive == a.isActive && Public(id, a).role == a.role
  {
  }

  /** A stored session is a hash together with its expiry, or neither. The
      schema makes both fields optional independently; only the service's
      writes keep them paired. */
  predicate SessionPaired(a: Account) {
    a.refreshToken.Some? <==> a.refreshTokenExpiresAt.Some?
  }

  /** The unique index on `email`: no two records, soft-deleted ones
      included, share an address. */
  ghost predicate EmailsUnique(accounts: seq<Account>) {
    forall i, j :: 0 <= i < j < |accounts| ==> accounts[i].email != accounts[j].email
  }

  /** The unique index is stronger than "one live account per email". */
  lemma UniqueIndexGivesOneLivePerEmail(accounts: seq<Account>, i: nat, j: nat)
    requires EmailsUnique(accounts)
    requires i < |accounts| && j < |accounts| && i != j
    requires IsLive(accounts[i]) && IsLive(accounts[j])
    ensures accounts[i].email != accounts[j].email
  {
    if i > j {
      assert accounts[j].email != accounts[i].email;
    }
  }
}
