/**
 * `refresh` compares the presented refresh token with the stored one through
 * bcrypt, and bcrypt reads only the first 72 bytes of its input. A compact
 * JWT begins with the encoded header and then the encoded payload, whose
 * first field is the subject, so its first 72 bytes are the same for every
 * token of one account. Once rotation has stored the hash of a new refresh
 * token, every earlier refresh token of that account that has not yet
 * expired still passes the comparison.
 *
 * This module writes out the token text and the truncating comparison, and
 * shows the stale token being accepted; `Accounts.RefreshGuard` compares
 * whole tokens, which is what rotation is meant to achieve.
 */
module BcryptTruncation {
  import opened Wrappers
  import opened Bcrypt
  import opened Jwt
  import opened AccountSchema
  import opened Accounts

  /** bcrypt hashes at most this many bytes of its input. */
  const BcryptInputLimit: nat := 72

  // ---------------------------------------------------------------------------
  // base64url without padding (section 5 of RFC 4648), over one-byte characters

  /** The base64url alphabet. */
  const Alphabet := "ABCDEFGHIJKLMNOPQRSTUVWXYZabcdefghijklmnopqrstuvwxyz0123456789-_"

  /** The `count` low base-64 digits of `n`, most significant first. */
  function Sextets(n: nat, count: nat): (r: string)
    ensures |r| == count
  {
    if count == 0 then [] else Sextets(n / 64, count - 1) + [Alphabet[n % 64]]
  }

  /** The byte a character is written as; token text is ASCII. */
  function Byte(c: char): nat {
    (c as int) % 256
  }

  /** Three bytes (24 bits) as four characters. */
  function Quad(s: string): (r: string)
    requires |s| == 3
    ensures |r| == 4
  {
    Sextets(Byte(s[0]) * 65536 + Byte(s[1]) * 256 + Byte(s[2]), 4)
  }

  /** The last one or two bytes, padded with zero bits to 12 or 18 bits, as
      two or three characters. */
  function Tail(s: string): (r: string)
    requires 1 <= |s| <= 2
    ensures |r| == |s| + 1
  {
    if |s| == 1 then Sextets(Byte(s[0]) * 16, 2)
    else Sextets((Byte(s[0]) * 256 + Byte(s[1])) * 4, 3)
  }

  function Base64Url(s: string): (r: string)
    decreases |s|
    ensures |r| >= |s|
  {
    if |s| >= 3 then Quad(s[..3]) + Base64Url(s[3..])
    else if |s| == 0 then []
    else Tail(s)
  }

  /** Encoding works three bytes at a time, so a text cut after a whole
      number of groups encodes as its two halves encoded apart. */
  lemma {:induction false} Base64UrlAppend(p: string, q: string, groups: nat)
    requires |p| == 3 * groups
    ensures Base64Url(p + q) == Base64Url(p) + Base64Url(q)
    decreases groups
  {
    if groups == 0 {
      assert p + q == q;
    } else {
      var s := p + q;
      assert s[..3] == p[..3];
      assert s[3..] == p[3..] + q;
      Base64UrlAppend(p[3..], q, groups - 1);
    }
  }

  /** Whole groups encode to four characters each. */
  lemma {:induction false} EncodedLength(s: string, groups: nat)
    requires |s| == 3 * groups
    ensures |Base64Url(s)| == 4 * groups
    decreases groups
  {
    if groups > 0 {
      EncodedLength(s[3..], groups - 1);
    }
  }

  // ---------------------------------------------------------------------------
  // The compact serialisation of a token

  /** `{"alg":"HS256","typ":"JWT"}`, the header the library writes for HS256. */
  const HeaderJson := "{\"alg\":\"HS256\",\"typ\":\"JWT\"}"

  /** The encoded header, 36 characters. */
  const EncodedHeader := Base64Url(HeaderJson)

  lemma EncodedHeaderLength()
    ensures |EncodedHeader| == 36
  {
    EncodedLength(HeaderJson, 9);
  }

  function DigitChar(d: nat): char
    requires d < 10
  {
    "0123456789"[d]
  }

  function Digits(n: nat): (r: string)
    ensures |r| >= 1
  {
    if n < 10 then [DigitChar(n)] else Digits(n / 10) + [DigitChar(n % 10)]
  }

  /** A JSON number written for a whole number. */
  function IntText(i: int): string {
    if i < 0 then "-" + Digits(-i) else Digits(i)
  }

  function KindText(k: Kind): string {
    match k
    case Access => "access"
    case Refresh => "refresh"
  }

  /** The start of the payload JSON, which depends only on the subject and
      the address: `{"sub":"…","email":"…","type":"`. */
  function StablePart(p: Payload): (r: string)
    ensures |r| >= 30
  {
    "{\"sub\":\"" + IntText(p.sub) + "\",\"email\":\"" + p.email + "\",\"type\":\""
  }

  /** `{"sub":…,"email":…,"type":…,"iat":…,"exp":…}`, in the order the
      library writes the claims. */
  function PayloadJson(c: Claims): string {
    StablePart(c.payload) + KindText(c.payload.kind) + "\",\"iat\":" + IntText(c.iat) + ",\"exp\":" + IntText(c.exp) + "}"
  }

  /** The signing input, encoded header `.` encoded payload. */
  function SigningInput(c: Claims): (r: string)
    ensures |r| > BcryptInputLimit
  {
    EncodedHeader + "." + Base64Url(PayloadJson(c))
  }

  /** The text of a presented token up to its signature, which follows the
      final `.` and begins past the bytes bcrypt reads. */
  function Serialize(t: Token): string {
    match t
    case Signed(c) => SigningInput(c) + "."
    case Tampered(c) => SigningInput(c) + "."
    case Malformed(text) => text
  }

  /** What bcrypt reads of its input. */
  function Truncated(s: string): (r: string)
    ensures |r| <= BcryptInputLimit
    ensures |s| <= BcryptInputLimit ==> r == s
  {
    if |s| <= BcryptInputLimit then s else s[..BcryptInputLimit]
  }

  /** Text after the first 72 bytes is not read: what follows `a + x`
      when that is already long enough does not matter. */
  lemma TruncatedKeepsHead(a: string, x: string, y: string)
    requires |a + x| > BcryptInputLimit
    ensures Truncated(a + (x + y) + ".") == (a + x)[..BcryptInputLimit]
  {
    assert a + (x + y) + "." == (a + x) + (y + ".");
  }

  /** `bcrypt.compare(refreshToken, doc.refreshToken)` as it behaves: only
      the first 72 bytes of each token take part. */
  predicate CompareAsWritten(candidate: Token, d: Digest<Token>) {
    Truncated(Serialize(candidate)) == Truncated(Serialize(d.preimage))
  }

  /** Whatever the full comparison accepts, the truncated one accepts too. */
  lemma CompareAsWrittenAcceptsMore(candidate: Token, d: Digest<Token>)
    ensures Compare(candidate, d) ==> CompareAsWritten(candidate, d)
  {
  }

  /** The first 27 bytes of the payload JSON, nine whole groups of the
      encoding, depend only on the subject and the address. */
  lemma PayloadHead(c1: Claims, c2: Claims)
    requires c1.payload.sub == c2.payload.sub && c1.payload.email == c2.payload.email
    ensures |PayloadJson(c1)| >= 27 && |PayloadJson(c2)| >= 27
    ensures PayloadJson(c1)[..27] == PayloadJson(c2)[..27]
  {
    var stable := StablePart(c1.payload);
    assert StablePart(c2.payload) == stable;
    assert PayloadJson(c1)[..27] == stable[..27];
    assert PayloadJson(c2)[..27] == stable[..27];
  }

  /** The first 27 bytes of a payload are nine whole groups: they encode
      to 36 characters, and the rest is encoded after them. */
  lemma EncodedPayloadHead(p: string)
    requires |p| >= 27
    ensures |Base64Url(p[..27])| == 36
    ensures Base64Url(p) == Base64Url(p[..27]) + Base64Url(p[27..])
  {
    assert p == p[..27] + p[27..];
    Base64UrlAppend(p[..27], p[27..], 9);
    EncodedLength(p[..27], 9);
  }

  /** What bcrypt reads of a token: the encoded header, the dot, and the
      encoding of the first 27 bytes of the payload, cut to 72 bytes. */
  lemma SerializedHead(c: Claims)
    ensures |EncodedHeader| == 36 && |PayloadJson(c)| >= 27 && |Base64Url(PayloadJson(c)[..27])| == 36
    ensures Truncated(Serialize(Signed(c))) == (EncodedHeader + "." + Base64Url(PayloadJson(c)[..27]))[..BcryptInputLimit]
  {
    var p := PayloadJson(c);
    EncodedPayloadHead(p);
    EncodedHeaderLength();
    TruncatedKeepsHead(EncodedHeader + ".", Base64Url(p[..27]), Base64Url(p[27..]));
  }

  /** Two tokens with the same subject and address serialise to the same
      first 72 bytes, whatever their kind, issue time and expiry, and
      whether or not their signature holds. */
  lemma SameAccountSamePrefix(c1: Claims, c2: Claims)
    requires c1.payload.sub == c2.payload.sub && c1.payload.email == c2.payload.email
    ensures Truncated(Serialize(Signed(c1))) == Truncated(Serialize(Signed(c2)))
    ensures Truncated(Serialize(Tampered(c1))) == Truncated(Serialize(Signed(c2)))
  {
    PayloadHead(c1, c2);
    SerializedHead(c1);
    SerializedHead(c2);
  }

  /** The refresh decision as written: the four checks of
      `Accounts.StoredSession`, then the truncating comparison. */
  function RefreshGuardAsWritten(accounts: seq<Account>, t: Token, nowMs: int): (r: Result<Id, Error>)
    ensures Accounts.RefreshGuard(accounts, t, nowMs).Success? ==> r == Accounts.RefreshGuard(accounts, t, nowMs)
    ensures r.Success? ==> StoredSession(accounts, t, nowMs).Success? && r.value == t.claims.payload.sub
  {
    match StoredSession(accounts, t, nowMs)
    case Failure(e) => Failure(e)
    case Success((id, stored)) =>
      if CompareAsWritten(t, stored) then Success(id) else Failure(Unauthorized(InvalidRefreshToken))
  }

  /** After rotation stored the hash of `refresh`, an earlier refresh token
      `stale` of the same account whose own expiry has not passed is still
      accepted as written, within the stored window; the whole-token
      comparison refuses it. */
  lemma StaleRefreshTokenAcceptedAsWritten(accounts: seq<Account>, id: Id, stale: Token, refresh: Token, salt: nat, nowMs: int, laterMs: int)
    requires FindById(accounts, id).Some?
    requires stale.Signed? && stale.claims.payload == Payload(id, accounts[id].email, Refresh)
    requires refresh.Signed? && refresh.claims.payload == stale.claims.payload
    requires NumericDate(laterMs) < stale.claims.exp && laterMs <= nowMs + SessionWindowMs
    ensures RefreshGuardAsWritten(Rotated(accounts, id, refresh, salt, nowMs), stale, laterMs) == Success(id)
    ensures stale != refresh ==>
      Accounts.RefreshGuard(Rotated(accounts, id, refresh, salt, nowMs), stale, laterMs) == Failure(Unauthorized(InvalidRefreshToken))
  {
    var rotated := Rotated(accounts, id, refresh, salt, nowMs);
    assert rotated[id].refreshToken == Some(Hash(refresh, salt));
    assert IsLive(rotated[id]);
    assert StoredSession(rotated, stale, laterMs) == Success((id, Hash(refresh, salt)));
    SameAccountSamePrefix(stale.claims, refresh.claims);
  }

  /** One account, `a@x.com`, logs in at second 1 and again at second 5;
      at second 6 the refresh token of the first login is accepted as
      written and refused by the whole-token comparison. */
  lemma StaleTokenExample()
    ensures
      var a := NewAccount("a@x.com", Hash("secret", 1), None, None, 0);
      var first := IssuedPair(DefaultTokenConfig, 0, "a@x.com", 1000).refreshToken;
      var second := IssuedPair(DefaultTokenConfig, 0, "a@x.com", 5000).refreshToken;
      var store := Rotated(Rotated([a], 0, first, 2, 1000), 0, second, 3, 5000);
      && first != second
      && RefreshGuardAsWritten(store, first, 6000) == Success(0)
      && Accounts.RefreshGuard(store, first, 6000) == Failure(Unauthorized(InvalidRefreshToken))
  {
    var a := NewAccount("a@x.com", Hash("secret", 1), None, None, 0);
    var first := IssuedPair(DefaultTokenConfig, 0, "a@x.com", 1000).refreshToken;
    var second := IssuedPair(DefaultTokenConfig, 0, "a@x.com", 5000).refreshToken;
    var once := Rotated([a], 0, first, 2, 1000);
    assert once[0].email == "a@x.com" && IsLive(once[0]);
    assert first.claims.iat == 1 && second.claims.iat == 5;
    StaleRefreshTokenAcceptedAsWritten(once, 0, first, second, 3, 5000, 6000);
  }
}
